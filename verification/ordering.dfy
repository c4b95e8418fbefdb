/** Orders and sorting. pandas' `sort_values` over several keys is a stable
    lexicographic sort; it is modelled by a stable insertion sort over a
    "comes no later than" relation, and the keys are compared lexicographically. */
module Ordering {

  /** `le` is total and transitive: a valid sort key order (ties allowed). */
  ghost predicate TotalPreorder<T(!new)>(le: (T, T) -> bool) {
    && (forall x, y :: le(x, y) || le(y, x))
    && (forall x, y, z :: le(x, y) && le(y, z) ==> le(x, z))
  }

  /** `lt` is irreflexive, transitive and relates any two distinct values. */
  ghost predicate StrictTotalOrder<T(!new)>(lt: (T, T) -> bool) {
    && (forall x :: !lt(x, x))
    && (forall x, y :: x != y ==> lt(x, y) || lt(y, x))
    && (forall x, y, z :: lt(x, y) && lt(y, z) ==> lt(x, z))
  }

  ghost predicate SortedBy<T>(s: seq<T>, le: (T, T) -> bool) {
    forall i, j :: 0 <= i < j < |s| ==> le(s[i], s[j])
  }

  /** Inserts `x` into `s` after every element that comes no later than `x`. */
  function Insert<T>(x: T, s: seq<T>, le: (T, T) -> bool): (r: seq<T>)
    ensures multiset(r) == multiset(s) + multiset{x} && |r| == |s| + 1
  {
    if s == [] then [x]
    else if le(s[0], x) then
      assert s == [s[0]] + s[1..];
      [s[0]] + Insert(x, s[1..], le)
    else [x] + s
  }

  /** Stable sort: each element is inserted after the earlier ones it ties with. */
  function SortBy<T>(s: seq<T>, le: (T, T) -> bool): (r: seq<T>)
    ensures multiset(r) == multiset(s) && |r| == |s|
  {
    if s == [] then []
    else
      var init := s[..|s| - 1];
      assert s == init + [s[|s| - 1]];
      assert multiset(s) == multiset(init) + multiset{s[|s| - 1]};
      Insert(s[|s| - 1], SortBy(init, le), le)
  }

  lemma {:induction false} InsertSorted<T(!new)>(x: T, s: seq<T>, le: (T, T) -> bool)
    requires TotalPreorder(le) && SortedBy(s, le)
    ensures SortedBy(Insert(x, s, le), le)
  {
    if s != [] && le(s[0], x) {
      InsertSorted(x, s[1..], le);
      var r := Insert(x, s, le);
      var tail := Insert(x, s[1..], le);
      assert r == [s[0]] + tail;
      forall k | 0 <= k < |tail| ensures le(s[0], tail[k]) {
        assert tail[k] in multiset(tail);
        assert tail[k] in multiset(s[1..]) || tail[k] == x;
        if tail[k] != x {
          var m :| 0 <= m < |s[1..]| && s[1..][m] == tail[k];
          assert s[1 + m] == tail[k];
        }
      }
    } else if s != [] {
      assert !le(s[0], x);
      assert le(x, s[0]);
    }
  }

  /** The sort's result is ordered by `le`. */
  lemma {:induction false} SortBySorted<T(!new)>(s: seq<T>, le: (T, T) -> bool)
    requires TotalPreorder(le)
    ensures SortedBy(SortBy(s, le), le)
  {
    if s != [] {
      SortBySorted(s[..|s| - 1], le);
      InsertSorted(s[|s| - 1], SortBy(s[..|s| - 1], le), le);
    }
  }

  /** Python's `seq[:n]`, pandas' `head(n)`. */
  function Head<T>(s: seq<T>, n: nat): (r: seq<T>)
    ensures |r| <= n && |r| <= |s| && r == s[..|r|]
    ensures |s| >= n ==> |r| == n
    ensures |s| < n ==> r == s
  {
    if |s| <= n then s else s[..n]
  }

  /** Cutting a sorted sequence short keeps its first elements: whatever is
      left out comes no earlier than anything kept. */
  lemma HeadKeepsFirst<T(!new)>(s: seq<T>, le: (T, T) -> bool, n: nat, x: T, y: T)
    requires TotalPreorder(le)
    requires x in s && x !in Head(SortBy(s, le), n) && y in Head(SortBy(s, le), n)
    ensures le(y, x)
  {
    var sorted := SortBy(s, le);
    var h := Head(sorted, n);
    SortBySorted(s, le);
    assert x in multiset(sorted);
    var m :| 0 <= m < |sorted| && sorted[m] == x;
    var i :| 0 <= i < |h| && h[i] == y;
    assert h[i] == sorted[i];
  }

  /** Lexicographic "no later than" over sequences, a proper prefix first. */
  function LexLe<T(==)>(a: seq<T>, b: seq<T>, lt: (T, T) -> bool): bool {
    a == [] || (b != [] && (lt(a[0], b[0]) || (a[0] == b[0] && LexLe(a[1..], b[1..], lt))))
  }

  lemma {:induction false} LexTotal<T(!new)>(a: seq<T>, b: seq<T>, lt: (T, T) -> bool)
    requires StrictTotalOrder(lt)
    ensures LexLe(a, b, lt) || LexLe(b, a, lt)
  {
    if a != [] && b != [] && a[0] == b[0] {
      LexTotal(a[1..], b[1..], lt);
    }
  }

  lemma {:induction false} LexTrans<T(!new)>(a: seq<T>, b: seq<T>, c: seq<T>, lt: (T, T) -> bool)
    requires StrictTotalOrder(lt) && LexLe(a, b, lt) && LexLe(b, c, lt)
    ensures LexLe(a, c, lt)
  {
    if a != [] && a[0] == b[0] && b[0] == c[0] {
      LexTrans(a[1..], b[1..], c[1..], lt);
    }
  }

  lemma {:induction false} LexAntisym<T(!new)>(a: seq<T>, b: seq<T>, lt: (T, T) -> bool)
    requires StrictTotalOrder(lt) && LexLe(a, b, lt) && LexLe(b, a, lt)
    ensures a == b
  {
    if a != [] {
      assert b != [];
      LexAntisym(a[1..], b[1..], lt);
      assert a == [a[0]] + a[1..] && b == [b[0]] + b[1..];
    }
  }

  predicate IntLt(x: int, y: int) { x < y }

  predicate CharLt(x: char, y: char) { x < y }

  lemma IntLtStrict()
    ensures StrictTotalOrder(IntLt)
  {
  }

  lemma CharLtStrict()
    ensures StrictTotalOrder(CharLt)
  {
  }

  /** Lexicographic order on integer keys, the form every numeric sort key takes here. */
  predicate KeyLe(a: seq<int>, b: seq<int>) {
    LexLe(a, b, IntLt)
  }

  /** Python's `<=` on strings: code point by code point. */
  predicate StrLe(a: string, b: string) {
    LexLe(a, b, CharLt)
  }

  lemma KeyLeTotalOrder(a: seq<int>, b: seq<int>, c: seq<int>)
    ensures KeyLe(a, b) || KeyLe(b, a)
    ensures KeyLe(a, b) && KeyLe(b, c) ==> KeyLe(a, c)
    ensures KeyLe(a, b) && KeyLe(b, a) ==> a == b
  {
    IntLtStrict();
    LexTotal(a, b, IntLt);
    if KeyLe(a, b) && KeyLe(b, c) { LexTrans(a, b, c, IntLt); }
    if KeyLe(a, b) && KeyLe(b, a) { LexAntisym(a, b, IntLt); }
  }

  lemma StrLeTotalOrder(a: string, b: string, c: string)
    ensures StrLe(a, b) || StrLe(b, a)
    ensures StrLe(a, b) && StrLe(b, c) ==> StrLe(a, c)
    ensures StrLe(a, b) && StrLe(b, a) ==> a == b
  {
    CharLtStrict();
    LexTotal(a, b, CharLt);
    if StrLe(a, b) && StrLe(b, c) { LexTrans(a, b, c, CharLt); }
    if StrLe(a, b) && StrLe(b, a) { LexAntisym(a, b, CharLt); }
  }
}
