/** Small building blocks shared by every module: error results, the string
    operations the scheduler applies to names and identifiers, and the
    sorting that Python's `sorted` performs on sets and on index lists. */
module Common {

  datatype Result<T, E> = Ok(value: T) | Err(error: E)

  function Elems<T>(s: seq<T>): set<T> {
    set x | x in s
  }

  /** `range(n)` */
  function Range(n: nat): (r: seq<nat>)
    ensures |r| == n && forall i :: 0 <= i < n ==> r[i] == i
  {
    seq(n, i requires 0 <= i < n => i)
  }

  lemma RangeElems(n: nat)
    ensures forall i: int :: i in Elems(Range(n)) <==> 0 <= i < n
  {
    var r := Range(n);
    forall i: int | 0 <= i < n ensures i in Elems(r) { assert r[i] == i; }
    forall i: int | i in Elems(r) ensures 0 <= i < n {
      var j :| 0 <= j < n && r[j] == i;
    }
  }

  /** The number of offsets `range(length)` yields. */
  function Offsets(length: int): nat {
    if length > 0 then length else 0
  }

  function Max(a: int, b: int): int {
    if a >= b then a else b
  }

  function Min(a: int, b: int): int {
    if a <= b then a else b
  }

  /** Python's `a // b`, which rounds toward minus infinity. For a positive
      divisor that is Dafny's Euclidean division; for a negative one it is
      the Euclidean quotient of the negated operands. */
  function FloorDiv(a: int, b: int): int
    requires b != 0
  {
    if b > 0 then a / b else (-a) / (-b)
  }

  /** Python's `a % b`, whose sign follows the divisor. */
  function FloorMod(a: int, b: int): int
    requires b != 0
  {
    a - b * FloorDiv(a, b)
  }

  /** Python's `divmod` contract: quotient and remainder rebuild the
      dividend, and the remainder lies between zero and the divisor. */
  lemma FloorDivMod(a: int, b: int)
    requires b != 0
    ensures b * FloorDiv(a, b) + FloorMod(a, b) == a
    ensures b > 0 ==> 0 <= FloorMod(a, b) < b
    ensures b < 0 ==> b < FloorMod(a, b) <= 0
  {
    if b < 0 {
      var q := (-a) / (-b);
      assert (-b) * q + (-a) % (-b) == -a;
      assert FloorMod(a, b) == -((-a) % (-b));
    }
  }

  // ---------------------------------------------------------------------
  // Strings
  // ---------------------------------------------------------------------

  /** `str.lower()` restricted to ASCII letters. */
  function LowerChar(c: char): char {
    if 'A' <= c <= 'Z' then (c as int + 32) as char else c
  }

  function Lower(s: string): string {
    seq(|s|, i requires 0 <= i < |s| => LowerChar(s[i]))
  }

  predicate IsPrefix(p: string, s: string) {
    |p| <= |s| && s[..|p|] == p
  }

  /** Python's substring test `sub in s`. */
  predicate Contains(s: string, sub: string)
    decreases |s|
  {
    IsPrefix(sub, s) || (|s| > 0 && Contains(s[1..], sub))
  }

  lemma {:induction false} ContainsAt(s: string, sub: string, i: nat)
    requires i + |sub| <= |s| && s[i..i + |sub|] == sub
    ensures Contains(s, sub)
    decreases i
  {
    if i == 0 {
      assert s[..|sub|] == sub;
    } else {
      assert s[1..][i - 1..i - 1 + |sub|] == s[i..i + |sub|];
      ContainsAt(s[1..], sub, i - 1);
    }
  }

  function DigitChar(d: nat): char
    requires d < 10
  {
    ('0' as int + d) as char
  }

  /** f"{n}" for a non-negative integer: its decimal digits. */
  function NatToString(n: nat): (r: string)
    ensures |r| >= 1
    decreases n
  {
    if n < 10 then [DigitChar(n)] else NatToString(n / 10) + [DigitChar(n % 10)]
  }

  /** Different numbers have different decimal forms, so generated identifiers that
      differ only in an index are different. */
  lemma {:induction false} NatToStringInjective(a: nat, b: nat)
    requires NatToString(a) == NatToString(b)
    ensures a == b
    decreases a
  {
    var sa, sb := NatToString(a), NatToString(b);
    if a < 10 && b < 10 {
      assert sa[0] == DigitChar(a) && sb[0] == DigitChar(b);
    } else if a >= 10 && b >= 10 {
      assert sa[|sa| - 1] == DigitChar(a % 10) && sb[|sb| - 1] == DigitChar(b % 10);
      assert NatToString(a / 10) == sa[..|sa| - 1] == sb[..|sb| - 1] == NatToString(b / 10);
      NatToStringInjective(a / 10, b / 10);
    }
  }

  /** Python's ordering of strings: lexicographic by code point, a proper
      prefix first. */
  predicate LexLess(a: string, b: string)
    decreases |a|
  {
    if |a| == 0 then |b| > 0
    else if |b| == 0 then false
    else if a[0] != b[0] then a[0] < b[0]
    else LexLess(a[1..], b[1..])
  }

  lemma {:induction false} LexLessIrreflexive(a: string)
    ensures !LexLess(a, a)
    decreases |a|
  {
    if |a| > 0 { LexLessIrreflexive(a[1..]); }
  }

  lemma {:induction false} LexLessTotal(a: string, b: string)
    requires a != b
    ensures LexLess(a, b) || LexLess(b, a)
    decreases |a|
  {
    if |a| > 0 && |b| > 0 && a[0] == b[0] {
      assert a == [a[0]] + a[1..] && b == [b[0]] + b[1..];
      LexLessTotal(a[1..], b[1..]);
    }
  }

  lemma {:induction false} LexLessTransitive(a: string, b: string, c: string)
    requires LexLess(a, b) && LexLess(b, c)
    ensures LexLess(a, c)
    decreases |a|
  {
    if |a| > 0 && a[0] == b[0] && b[0] == c[0] {
      LexLessTransitive(a[1..], b[1..], c[1..]);
    }
  }

  // ---------------------------------------------------------------------
  // Sorting distinct values (Python's `sorted(set(...))` and, on distinct
  // indices, a stable `sorted(..., key=...)`)
  // ---------------------------------------------------------------------

  ghost predicate StrictTotalOn<T>(S: set<T>, less: (T, T) -> bool) {
    && (forall x :: x in S ==> !less(x, x))
    && (forall x, y :: x in S && y in S && x != y ==> less(x, y) || less(y, x))
    && (forall x, y, z :: x in S && y in S && z in S && less(x, y) && less(y, z) ==> less(x, z))
  }

  ghost predicate StrictlySorted<T>(t: seq<T>, less: (T, T) -> bool) {
    forall i, j :: 0 <= i < j < |t| ==> less(t[i], t[j])
  }

  function Insert<T(==)>(x: T, t: seq<T>, less: (T, T) -> bool): seq<T> {
    if t == [] then [x]
    else if x == t[0] then t
    else if less(x, t[0]) then [x] + t
    else [t[0]] + Insert(x, t[1..], less)
  }

  function SortDistinct<T(==)>(s: seq<T>, less: (T, T) -> bool): seq<T> {
    if s == [] then [] else Insert(s[|s| - 1], SortDistinct(s[..|s| - 1], less), less)
  }

  lemma InsertFrontSorted<T>(x: T, t: seq<T>, less: (T, T) -> bool)
    requires StrictTotalOn(Elems(t) + {x}, less)
    requires StrictlySorted(t, less)
    requires t != [] && less(x, t[0])
    ensures StrictlySorted([x] + t, less)
  {
    var r := [x] + t;
    forall i, j | 0 <= i < j < |r| ensures less(r[i], r[j]) {
      if i == 0 && j > 1 {
        assert r[j] == t[j - 1] && less(t[0], t[j - 1]);
      }
    }
  }

  lemma ConsSorted<T>(y: T, r: seq<T>, less: (T, T) -> bool)
    requires StrictlySorted(r, less)
    requires forall z :: z in r ==> less(y, z)
    ensures StrictlySorted([y] + r, less)
  {
    var u := [y] + r;
    forall i, j | 0 <= i < j < |u| ensures less(u[i], u[j]) {
      if i == 0 {
        assert u[j] == r[j - 1] && r[j - 1] in r;
      } else {
        assert u[i] == r[i - 1] && u[j] == r[j - 1];
      }
    }
  }

  lemma {:induction false} InsertSpec<T>(x: T, t: seq<T>, less: (T, T) -> bool)
    requires StrictTotalOn(Elems(t) + {x}, less)
    requires StrictlySorted(t, less)
    ensures StrictlySorted(Insert(x, t, less), less)
    ensures Elems(Insert(x, t, less)) == Elems(t) + {x}
    ensures x !in t ==> |Insert(x, t, less)| == |t| + 1
    decreases |t|
  {
    if t == [] {
    } else if x == t[0] {
    } else if less(x, t[0]) {
      assert Elems([x] + t) == Elems(t) + {x};
      InsertFrontSorted(x, t, less);
    } else {
      var t' := t[1..];
      assert t == [t[0]] + t';
      assert Elems(t) == {t[0]} + Elems(t');
      assert StrictlySorted(t', less) by {
        forall i, j | 0 <= i < j < |t'| ensures less(t'[i], t'[j]) {
          assert t'[i] == t[i + 1] && t'[j] == t[j + 1];
        }
      }
      InsertSpec(x, t', less);
      var r := Insert(x, t', less);
      assert less(t[0], x);
      forall z | z in r ensures less(t[0], z) {
        assert z in Elems(r);
        if z != x {
          assert z in t';
          var k :| 0 <= k < |t'| && t'[k] == z;
          assert t[k + 1] == z;
        }
      }
      ConsSorted(t[0], r, less);
      assert Insert(x, t, less) == [t[0]] + r;
      assert Elems([t[0]] + r) == {t[0]} + Elems(r);
    }
  }

  /** Sorting yields the same values, strictly ascending; on a duplicate-free
      input nothing is lost. */
  lemma {:induction false} SortDistinctSpec<T>(s: seq<T>, less: (T, T) -> bool)
    requires StrictTotalOn(Elems(s), less)
    ensures StrictlySorted(SortDistinct(s, less), less)
    ensures Elems(SortDistinct(s, less)) == Elems(s)
    ensures (forall i, j :: 0 <= i < j < |s| ==> s[i] != s[j]) ==> |SortDistinct(s, less)| == |s|
    decreases |s|
  {
    if s != [] {
      var p := s[..|s| - 1];
      assert s == p + [s[|s| - 1]];
      assert Elems(s) == Elems(p) + {s[|s| - 1]};
      SortDistinctSpec(p, less);
      InsertSpec(s[|s| - 1], SortDistinct(p, less), less);
      if forall i, j :: 0 <= i < j < |s| ==> s[i] != s[j] {
        assert s[|s| - 1] !in SortDistinct(p, less);
      }
    }
  }

  /** The ordering of strings used for entity labels is a strict total order. */
  lemma LexLessStrictTotal(S: set<string>)
    ensures StrictTotalOn(S, LexLess)
  {
    forall x | x in S ensures !LexLess(x, x) { LexLessIrreflexive(x); }
    forall x, y | x in S && y in S && x != y ensures LexLess(x, y) || LexLess(y, x) {
      LexLessTotal(x, y);
    }
    forall x, y, z | x in S && y in S && z in S && LexLess(x, y) && LexLess(y, z)
      ensures LexLess(x, z)
    {
      LexLessTransitive(x, y, z);
    }
  }
}
