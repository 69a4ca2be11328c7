/** Reference notion for the line diff: strictly increasing matchings between two
    line sequences, and the size of a largest one.  The relation between an expected
    line and an output line is arbitrary, as a regular expression may relate them. */
module Matching {

  function Max(x: nat, y: nat): nat { if x > y then x else y }

  /** `m` pairs lines of `a` from `i` on with lines of `b` from `j` on, in order and without crossing. */
  ghost predicate IsMatching<A, B>(m: seq<(nat, nat)>, a: seq<A>, b: seq<B>, rel: (A, B) -> bool, i: nat, j: nat)
  {
    && (forall k :: 0 <= k < |m| ==> i <= m[k].0 < |a| && j <= m[k].1 < |b| && rel(a[m[k].0], b[m[k].1]))
    && (forall k, l :: 0 <= k < l < |m| ==> m[k].0 < m[l].0 && m[k].1 < m[l].1)
  }

  /** The classical recurrence. `LcsIsLargest` and `LcsIsAttained` show that it is the
      size of a largest matching, for every relation. */
  function Lcs<A, B>(a: seq<A>, b: seq<B>, rel: (A, B) -> bool, i: nat, j: nat): (n: nat)
    requires i <= |a| && j <= |b|
    ensures n <= |a| - i && n <= |b| - j
    decreases |a| - i + |b| - j
  {
    if i == |a| || j == |b| then 0
    else if rel(a[i], b[j]) then 1 + Lcs(a, b, rel, i + 1, j + 1)
    else Max(Lcs(a, b, rel, i + 1, j), Lcs(a, b, rel, i, j + 1))
  }

  lemma LcsStep<A, B>(a: seq<A>, b: seq<B>, rel: (A, B) -> bool, i: nat, j: nat)
    requires i <= |a| && j <= |b|
    ensures Lcs(a, b, rel, i, j) ==
            if i == |a| || j == |b| then 0
            else if rel(a[i], b[j]) then 1 + Lcs(a, b, rel, i + 1, j + 1)
            else Max(Lcs(a, b, rel, i + 1, j), Lcs(a, b, rel, i, j + 1))
  {
  }

  /** No matching is larger than Lcs: taking a matching first pair is never a mistake. */
  lemma {:induction false} LcsIsLargest<A, B>(m: seq<(nat, nat)>, a: seq<A>, b: seq<B>, rel: (A, B) -> bool, i: nat,
                                              j: nat)
    requires i <= |a| && j <= |b|
    requires IsMatching(m, a, b, rel, i, j)
    ensures |m| <= Lcs(a, b, rel, i, j)
    decreases |a| - i + |b| - j
  {
    if m == [] {
      return;
    }
    assert i <= m[0].0 < |a| && j <= m[0].1 < |b|;
    if rel(a[i], b[j]) {
      var rest := m[1..];
      forall k | 0 <= k < |rest|
        ensures m[0].0 < rest[k].0 < |a| && m[0].1 < rest[k].1 < |b| && rel(a[rest[k].0], b[rest[k].1])
      {
        assert rest[k] == m[k + 1];
      }
      LcsIsLargest(rest, a, b, rel, i + 1, j + 1);
    } else if m[0].0 > i {
      LcsIsLargest(m, a, b, rel, i + 1, j);
    } else {
      LcsIsLargest(m, a, b, rel, i, j + 1);
    }
  }

  lemma {:induction false} LcsIsAttained<A, B>(a: seq<A>, b: seq<B>, rel: (A, B) -> bool, i: nat, j: nat)
    returns (m: seq<(nat, nat)>)
    requires i <= |a| && j <= |b|
    ensures IsMatching(m, a, b, rel, i, j)
    ensures |m| == Lcs(a, b, rel, i, j)
    decreases |a| - i + |b| - j
  {
    if i == |a| || j == |b| {
      m := [];
    } else if rel(a[i], b[j]) {
      var rest := LcsIsAttained(a, b, rel, i + 1, j + 1);
      m := [(i, j)] + rest;
    } else if Lcs(a, b, rel, i + 1, j) > Lcs(a, b, rel, i, j + 1) {
      m := LcsIsAttained(a, b, rel, i + 1, j);
    } else {
      m := LcsIsAttained(a, b, rel, i, j + 1);
    }
  }
}
