/** The order in which tests are run, `test_sort`. */
module Order {
  import opened Runs

  /** `strcmp`, as far as its sign goes. */
  function StrCmp(a: string, b: string): int {
    if a == [] && b == [] then 0
    else if a == [] then -1
    else if b == [] then 1
    else if a[0] < b[0] then -1
    else if a[0] > b[0] then 1
    else StrCmp(a[1..], b[1..])
  }

  function TestName(item: Item): string {
    if item.Pair? then item.name + ":" + item.via else item.name
  }

  /** Tests of the runner itself come first, other tests of the tests directory next. */
  function Rank(name: string, cwd: string): nat {
    if cwd + "/tests" <= name then 1 + (if cwd + "/tests/run-test" <= name then 1 else 0) else 0
  }

  function TestSort(a: Item, b: Item, cwd: string): int {
    var (x, y) := (TestName(a), TestName(b));
    if Rank(x, cwd) == Rank(y, cwd) then StrCmp(x, y) else Rank(y, cwd) - Rank(x, cwd)
  }

  lemma {:induction false} StrCmpZero(a: string, b: string)
    ensures StrCmp(a, b) == 0 <==> a == b
  {
    if a == [] || b == [] {
    } else {
      StrCmpZero(a[1..], b[1..]);
      assert a == [a[0]] + a[1..] && b == [b[0]] + b[1..];
    }
  }

  lemma {:induction false} StrCmpFlip(a: string, b: string)
    ensures StrCmp(a, b) == -StrCmp(b, a)
  {
    if a == [] || b == [] {
    } else {
      StrCmpFlip(a[1..], b[1..]);
    }
  }

  lemma {:induction false} StrCmpTransitive(a: string, b: string, c: string)
    requires StrCmp(a, b) <= 0 && StrCmp(b, c) <= 0
    ensures StrCmp(a, c) <= 0
    ensures StrCmp(a, b) < 0 || StrCmp(b, c) < 0 ==> StrCmp(a, c) < 0
  {
    if a == [] || b == [] || c == [] || a[0] != b[0] || b[0] != c[0] {
    } else {
      StrCmpTransitive(a[1..], b[1..], c[1..]);
    }
  }

  /** The order is total, and two tests tie only when their names agree. */
  lemma TestSortTotal(a: Item, b: Item, cwd: string)
    ensures TestSort(a, b, cwd) == 0 <==> TestName(a) == TestName(b)
    ensures TestSort(a, b, cwd) < 0 <==> TestSort(b, a, cwd) > 0
  {
    StrCmpZero(TestName(a), TestName(b));
    StrCmpFlip(TestName(a), TestName(b));
  }

  lemma TestSortTransitive(a: Item, b: Item, c: Item, cwd: string)
    requires TestSort(a, b, cwd) <= 0 && TestSort(b, c, cwd) <= 0
    ensures TestSort(a, c, cwd) <= 0
  {
    if Rank(TestName(a), cwd) == Rank(TestName(b), cwd) == Rank(TestName(c), cwd) {
      StrCmpTransitive(TestName(a), TestName(b), TestName(c));
    }
  }

  ghost predicate Sorted(items: seq<Item>, cwd: string) {
    forall k :: 0 <= k < |items| - 1 ==> TestSort(items[k], items[k + 1], cwd) <= 0
  }

  lemma {:induction false} SortedPairs(items: seq<Item>, cwd: string, i: nat, j: nat)
    requires Sorted(items, cwd) && i < j < |items|
    ensures TestSort(items[i], items[j], cwd) <= 0
    decreases j
  {
    assert TestSort(items[j - 1], items[j - 1 + 1], cwd) <= 0;
    if i < j - 1 {
      SortedPairs(items, cwd, i, j - 1);
      TestSortTransitive(items[i], items[j - 1], items[j], cwd);
    }
  }

  /** In byte order: `a` is a proper part of `b` from the start, or smaller where they first differ. */
  ghost predicate ComesBefore(a: string, b: string) {
    a < b || exists k :: 0 <= k < |a| && k < |b| && a[..k] == b[..k] && a[k] < b[k]
  }

  lemma {:induction false} StrCmpIff(a: string, b: string)
    ensures StrCmp(a, b) < 0 <==> ComesBefore(a, b)
  {
    if a == [] || b == [] {
    } else if a[0] != b[0] {
      FirstDiffers(a, b);
    } else {
      StrCmpIff(a[1..], b[1..]);
      SameStart(a, b);
    }
  }

  lemma FirstDiffers(a: string, b: string)
    requires a != [] && b != [] && a[0] != b[0]
    ensures ComesBefore(a, b) <==> a[0] < b[0]
  {
    assert a[..0] == b[..0] == [];
    forall k | 0 < k <= |a| && k <= |b| ensures a[..k] != b[..k] { assert a[..k][0] != b[..k][0]; }
  }

  lemma SameStart(a: string, b: string)
    requires a != [] && b != [] && a[0] == b[0]
    ensures ComesBefore(a, b) <==> ComesBefore(a[1..], b[1..])
  {
    assert a == [a[0]] + a[1..] && b == [b[0]] + b[1..];
    assert a < b <==> a[1..] < b[1..];
    if k :| 0 <= k < |a| && k < |b| && a[..k] == b[..k] && a[k] < b[k] {
      assert a[1..][..k - 1] == a[..k][1..] && b[1..][..k - 1] == b[..k][1..];
      assert a[1..][k - 1] < b[1..][k - 1];
    }
    if k :| 0 <= k < |a[1..]| && k < |b[1..]| && a[1..][..k] == b[1..][..k] && a[1..][k] < b[1..][k] {
      assert a[..k + 1] == [a[0]] + a[1..][..k] && b[..k + 1] == [b[0]] + b[1..][..k];
      assert a[k + 1] < b[k + 1];
    }
  }

  /** The name an entry is sorted by. */
  predicate IsNamed(item: Item, x: string) {
    item == Single(x) || (item.Pair? && x == item.name + ":" + item.via)
  }

  /** Any list sorted this way has the runner's own tests first, then those of the tests directory, then the rest,
      each group in byte order. */
  lemma SortedInGroups(items: seq<Item>, cwd: string, i: nat, j: nat, x: string, y: string)
    requires Sorted(items, cwd) && i < j < |items| && IsNamed(items[i], x) && IsNamed(items[j], y)
    ensures cwd + "/tests/run-test" <= y ==> cwd + "/tests/run-test" <= x
    ensures cwd + "/tests" <= y ==> cwd + "/tests" <= x
    ensures var (own, tests) := (cwd + "/tests/run-test", cwd + "/tests");
            (own <= x ==> own <= y) && (tests <= x ==> tests <= y) ==> x == y || ComesBefore(x, y)
  {
    SortedPairs(items, cwd, i, j);
    StrCmpZero(x, y);
    StrCmpIff(x, y);
    assert cwd + "/tests" <= cwd + "/tests/run-test" by {
      assert cwd + "/tests/run-test" == cwd + "/tests" + "/run-test";
    }
  }
}
