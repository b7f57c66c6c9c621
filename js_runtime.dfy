/** The JavaScript built-ins that the CRM pages rely on, stated exactly:
    `String.prototype.trim`, the `\s` class of regular expressions,
    `Array.prototype.filter`, `Array.prototype.reduce` summing a field,
    `Math.max(...xs, 0)`, and the NaN rule for comparing parsed numbers.
    Each contract pins the result: `Trim` gives the exact slice between the
    leading and the trailing white space. */
module JsRuntime {

  /** A number read from a form field with `parseInt`/`parseFloat`:
      `None` stands for the empty field, which parses to NaN. */
  datatype Option<+T> = None | Some(value: T)

  /** `!field || parse(field) <= 0`: the field is empty or not positive. */
  predicate MissingOrNonPositive(x: Option<int>)
  {
    x.None? || x.value <= 0
  }

  /** `parse(a) <= parse(b)`: every comparison with NaN is false. */
  predicate AtMost(a: Option<int>, b: Option<int>)
  {
    a.Some? && b.Some? && a.value <= b.value
  }

  /** The characters that `trim` removes and that `\s` matches:
      WhiteSpace and LineTerminator of ECMAScript. */
  predicate IsWhiteSpace(c: char)
  {
    var n := c as int;
    n == 0x09 || n == 0x0A || n == 0x0B || n == 0x0C || n == 0x0D || n == 0x20
    || n == 0xA0 || n == 0x1680 || (0x2000 <= n <= 0x200A) || n == 0x2028
    || n == 0x2029 || n == 0x202F || n == 0x205F || n == 0x3000 || n == 0xFEFF
  }

  /** A string made only of white space (the empty string included). */
  predicate IsBlank(s: string)
  {
    forall i | 0 <= i < |s| :: IsWhiteSpace(s[i])
  }

  /** Drops the leading white space. */
  function TrimStart(s: string): (r: string)
    ensures |r| <= |s| && r == s[|s| - |r|..]
    ensures forall i | 0 <= i < |s| - |r| :: IsWhiteSpace(s[i])
    ensures r == [] || !IsWhiteSpace(r[0])
  {
    if s != [] && IsWhiteSpace(s[0]) then TrimStart(s[1..]) else s
  }

  /** Drops the trailing white space. */
  function TrimEnd(s: string): (r: string)
    ensures |r| <= |s| && r == s[..|r|]
    ensures forall i | |r| <= i < |s| :: IsWhiteSpace(s[i])
    ensures r == [] || !IsWhiteSpace(r[|r| - 1])
  {
    if s != [] && IsWhiteSpace(s[|s| - 1]) then TrimEnd(s[..|s| - 1]) else s
  }

  /** `s.trim()`: the slice of `s` between its leading and trailing white
      space. The slice starts where `TrimStart` stops, so a blank prefix comes
      before it and a blank suffix after it. It is empty exactly when `s` is
      blank, so `!s.trim()` is `IsBlank(s)`. */
  function Trim(s: string): (r: string)
    ensures r == [] <==> IsBlank(s)
    ensures r != [] ==> !IsWhiteSpace(r[0]) && !IsWhiteSpace(r[|r| - 1])
    ensures |s| - |TrimStart(s)| + |r| <= |s|
    ensures r == s[|s| - |TrimStart(s)|..|s| - |TrimStart(s)| + |r|]
    ensures IsBlank(s[..|s| - |TrimStart(s)|])
    ensures IsBlank(s[|s| - |TrimStart(s)| + |r|..])
  {
    var t := TrimStart(s);
    var r := TrimEnd(t);
    TrimmedSlice(s, t, r);
    r
  }

  /** When `t` is `s` without its leading white space and `r` is `t`
      without its trailing white space, `r` is the slice of `s` between a
      blank prefix and a blank suffix, and it is empty exactly when `s` is
      blank. */
  lemma TrimmedSlice(s: string, t: string, r: string)
    requires |t| <= |s| && t == s[|s| - |t|..]
    requires forall i | 0 <= i < |s| - |t| :: IsWhiteSpace(s[i])
    requires t == [] || !IsWhiteSpace(t[0])
    requires |r| <= |t| && r == t[..|r|]
    requires forall i | |r| <= i < |t| :: IsWhiteSpace(t[i])
    ensures r == [] <==> IsBlank(s)
    ensures r == s[|s| - |t|..|s| - |t| + |r|]
    ensures IsBlank(s[..|s| - |t|])
    ensures IsBlank(s[|s| - |t| + |r|..])
  {
    var k := |s| - |t|;
    var n := k + |r|;
    forall j | 0 <= j < |s| - n ensures IsWhiteSpace(s[n..][j]) {
      assert s[n..][j] == t[|r| + j];
    }
    assert r == [] ==> IsBlank(s) by {
      if r == [] {
        forall i | 0 <= i < |s| ensures IsWhiteSpace(s[i]) {
          assert s[i] == s[..k][i];
        }
      }
    }
    assert t != [] ==> !IsBlank(s) by {
      if t != [] { assert s[k] == t[0]; }
    }
  }

  /** `!s.trim()`: the field holds nothing but white space. */
  method IsBlankAfterTrim(s: string) returns (blank: bool)
    ensures blank == IsBlank(s)
  {
    blank := Trim(s) == [];
  }

  /** `Array.prototype.filter`: the elements that `keep` accepts, in order. */
  function Filter<T>(xs: seq<T>, keep: T -> bool): (r: seq<T>)
    ensures |r| <= |xs|
    ensures forall x | x in r :: x in xs && keep(x)
    ensures forall x | x in xs && keep(x) :: x in r
  {
    if xs == [] then []
    else
      var rest := Filter(xs[..|xs| - 1], keep);
      if keep(xs[|xs| - 1]) then rest + [xs[|xs| - 1]] else rest
  }

  /** Filtering a concatenation filters each part and keeps their order. */
  lemma {:induction false} FilterAppend<T>(a: seq<T>, b: seq<T>, keep: T -> bool)
    ensures Filter(a + b, keep) == Filter(a, keep) + Filter(b, keep)
  {
    if b == [] {
      assert a + b == a;
    } else {
      var b' := b[..|b| - 1];
      assert (a + b)[..|a + b| - 1] == a + b';
      FilterAppend(a, b', keep);
    }
  }

  /** Filtering twice with the same test is filtering once. */
  lemma {:induction false} FilterIdempotent<T>(xs: seq<T>, keep: T -> bool)
    ensures Filter(Filter(xs, keep), keep) == Filter(xs, keep)
  {
    if xs != [] {
      var init := xs[..|xs| - 1];
      FilterIdempotent(init, keep);
      var x := xs[|xs| - 1];
      if keep(x) {
        FilterAppend(Filter(init, keep), [x], keep);
        assert Filter([x], keep) == [x] by { assert [x][..0] == []; }
      }
    }
  }

  /** A filter that every element passes returns its input unchanged. */
  lemma {:induction false} FilterKeepsAll<T>(xs: seq<T>, keep: T -> bool)
    requires forall x | x in xs :: keep(x)
    ensures Filter(xs, keep) == xs
  {
    if xs != [] {
      FilterKeepsAll(xs[..|xs| - 1], keep);
      assert xs[..|xs| - 1] + [xs[|xs| - 1]] == xs;
    }
  }

  /** When exactly the element at `k` fails the test, filtering removes that
      element and keeps the others in their order. */
  lemma FilterDropsOne<T>(xs: seq<T>, keep: T -> bool, k: nat)
    requires k < |xs| && !keep(xs[k])
    requires forall i | 0 <= i < |xs| && i != k :: keep(xs[i])
    ensures Filter(xs, keep) == xs[..k] + xs[k + 1..]
  {
    assert xs == xs[..k] + [xs[k]] + xs[k + 1..];
    FilterAppend(xs[..k] + [xs[k]], xs[k + 1..], keep);
    FilterAppend(xs[..k], [xs[k]], keep);
    FilterKeepsAll(xs[..k], keep);
    FilterKeepsAll(xs[k + 1..], keep);
    assert Filter([xs[k]], keep) == [] by { assert [xs[k]][..0] == []; }
  }

  /** No two elements of `xs` share a key. */
  predicate DistinctBy<T>(xs: seq<T>, key: T -> int)
  {
    forall i, j | 0 <= i < j < |xs| :: key(xs[i]) != key(xs[j])
  }

  /** A filtered sequence of distinct keys still has distinct keys. */
  lemma {:induction false} FilterDistinct<T>(xs: seq<T>, keep: T -> bool, key: T -> int)
    requires DistinctBy(xs, key)
    ensures DistinctBy(Filter(xs, keep), key)
  {
    if xs != [] {
      var init, x := xs[..|xs| - 1], xs[|xs| - 1];
      FilterDistinct(init, keep, key);
      var rest := Filter(init, keep);
      if keep(x) {
        forall i | 0 <= i < |rest| ensures key(rest[i]) != key(x) {
          assert rest[i] in init;
          var k :| 0 <= k < |init| && init[k] == rest[i];
          assert xs[k] == rest[i];
        }
      }
    }
  }

  /** `xs.reduce((sum, x) => sum + f(x), 0)`, folded from the left. */
  function SumBy<T>(xs: seq<T>, f: T -> int): int
  {
    if xs == [] then 0 else SumBy(xs[..|xs| - 1], f) + f(xs[|xs| - 1])
  }

  lemma {:induction false} SumByAppend<T>(a: seq<T>, b: seq<T>, f: T -> int)
    ensures SumBy(a + b, f) == SumBy(a, f) + SumBy(b, f)
  {
    if b == [] {
      assert a + b == a;
    } else {
      var b' := b[..|b| - 1];
      assert (a + b)[..|a + b| - 1] == a + b';
      SumByAppend(a, b', f);
    }
  }

  /** Replacing one element changes the sum by the difference of its terms. */
  lemma {:induction false} SumByUpdate<T>(xs: seq<T>, k: nat, v: T, f: T -> int)
    requires k < |xs|
    ensures SumBy(xs[k := v], f) == SumBy(xs, f) - f(xs[k]) + f(v)
  {
    var ys := xs[k := v];
    assert xs == xs[..k] + [xs[k]] + xs[k + 1..];
    assert ys == xs[..k] + [v] + xs[k + 1..];
    SumByAppend(xs[..k] + [xs[k]], xs[k + 1..], f);
    SumByAppend(xs[..k], [xs[k]], f);
    SumByAppend(xs[..k] + [v], xs[k + 1..], f);
    SumByAppend(xs[..k], [v], f);
    assert SumBy([v], f) == f(v) by { assert [v][..0] == []; }
    assert SumBy([xs[k]], f) == f(xs[k]) by { assert [xs[k]][..0] == []; }
  }

  /** The sum splits into the part `keep` accepts and the part `drop` accepts. */
  lemma {:induction false} SumBySplit<T>(xs: seq<T>, f: T -> int, keep: T -> bool, drop: T -> bool)
    requires forall x :: drop(x) == !keep(x)
    ensures SumBy(xs, f) == SumBy(Filter(xs, keep), f) + SumBy(Filter(xs, drop), f)
  {
    if xs != [] {
      var init, x := xs[..|xs| - 1], xs[|xs| - 1];
      SumBySplit(init, f, keep, drop);
      if keep(x) {
        SumByAppend(Filter(init, keep), [x], f);
      } else {
        SumByAppend(Filter(init, drop), [x], f);
      }
      assert SumBy([x], f) == f(x) by { assert [x][..0] == []; }
    }
  }

  /** Summing a pointwise smaller term gives a smaller sum. */
  lemma {:induction false} SumByMonotonic<T>(xs: seq<T>, f: T -> int, g: T -> int)
    requires forall x | x in xs :: f(x) <= g(x)
    ensures SumBy(xs, f) <= SumBy(xs, g)
  {
    if xs != [] {
      SumByMonotonic(xs[..|xs| - 1], f, g);
    }
  }

  /** The sum of a difference is the difference of the sums. */
  lemma {:induction false} SumByDifference<T>(xs: seq<T>, f: T -> int, g: T -> int, h: T -> int)
    requires forall x :: h(x) == f(x) - g(x)
    ensures SumBy(xs, h) == SumBy(xs, f) - SumBy(xs, g)
  {
    if xs != [] {
      SumByDifference(xs[..|xs| - 1], f, g, h);
    }
  }

  /** A sum of non-negative terms is zero exactly when every term is zero. */
  lemma {:induction false} SumByZero<T>(xs: seq<T>, f: T -> int)
    requires forall x | x in xs :: f(x) >= 0
    ensures SumBy(xs, f) >= 0
    ensures SumBy(xs, f) == 0 <==> forall x | x in xs :: f(x) == 0
  {
    if xs != [] {
      var init := xs[..|xs| - 1];
      SumByZero(init, f);
      assert xs == init + [xs[|xs| - 1]];
    }
  }

  /** `Math.max(...xs, 0)`: the largest element, or 0 if that is larger. */
  function MaxOrZero(xs: seq<int>): (m: int)
    ensures 0 <= m
    ensures forall i | 0 <= i < |xs| :: xs[i] <= m
    ensures m == 0 || m in xs
  {
    if xs == [] then 0
    else
      var rest := MaxOrZero(xs[..|xs| - 1]);
      assert rest in xs[..|xs| - 1] ==> rest in xs;
      if xs[|xs| - 1] > rest then xs[|xs| - 1] else rest
  }
}
