/** Label sets as strictly sorted vectors, and the index walks over them. */
module Labels {
  import opened Sequences

  type Label = int

  ghost predicate Sorted(s: seq<Label>) {
    forall i, j :: 0 <= i < j < |s| ==> s[i] <= s[j]
  }

  ghost predicate StrictlySorted(s: seq<Label>) {
    forall i, j :: 0 <= i < j < |s| ==> s[i] < s[j]
  }

  type LabelSet = s: seq<Label> | StrictlySorted(s) witness []

  /** The meaning of `contains_intersection`: the part of `a` that also lies in
      `b` is contained in `c`. */
  ghost predicate Covers(c: LabelSet, a: LabelSet, b: LabelSet) {
    ToSet(a) * ToSet(b) <= ToSet(c)
  }

  /** The meaning of `overlaps`. */
  ghost predicate Overlap(a: LabelSet, b: LabelSet) {
    exists x :: x in a && x in b
  }

  // ----- construction: sort, then drop adjacent repetitions -----

  function Insert(x: Label, s: seq<Label>): seq<Label> {
    if s == [] || x <= s[0] then [x] + s else [s[0]] + Insert(x, s[1..])
  }

  function Sort(s: seq<Label>): seq<Label> {
    if s == [] then [] else Insert(s[0], Sort(s[1..]))
  }

  lemma {:induction false} InsertSorts(x: Label, s: seq<Label>)
    requires Sorted(s)
    ensures Sorted(Insert(x, s))
    ensures ToSet(Insert(x, s)) == ToSet(s) + {x}
  {
    hide ToSet, Sorted;
    if s == [] || x <= s[0] {
      ConsElements(x, s);
      HeadFirst(x, s);
    } else {
      var t := Insert(x, s[1..]);
      assert s == [s[0]] + s[1..];
      TailSorted(s);
      InsertSorts(x, s[1..]);
      ConsElements(s[0], t);
      ConsElements(s[0], s[1..]);
      AtLeastHead(s, x, t);
    }
  }

  lemma HeadFirst(x: Label, s: seq<Label>)
    requires Sorted(s) && (s == [] || x <= s[0])
    ensures Sorted([x] + s)
  {
  }

  lemma TailSorted(s: seq<Label>)
    requires Sorted(s) && s != []
    ensures Sorted(s[1..])
  {
  }

  lemma ConsElements(x: Label, s: seq<Label>)
    ensures ToSet([x] + s) == ToSet(s) + {x}
  {
  }

  lemma AtLeastHead(s: seq<Label>, x: Label, t: seq<Label>)
    requires Sorted(s) && s != [] && s[0] < x && Sorted(t) && ToSet(t) == ToSet(s[1..]) + {x}
    ensures Sorted([s[0]] + t)
  {
    forall i | 0 <= i < |t| ensures s[0] <= t[i] {
      assert t[i] in ToSet(t);
    }
  }

  lemma {:induction false} SortSorts(s: seq<Label>)
    ensures Sorted(Sort(s)) && ToSet(Sort(s)) == ToSet(s)
  {
    if s == [] {
    } else {
      SortSorts(s[1..]);
      InsertSorts(s[0], Sort(s[1..]));
      assert ToSet(s) == ToSet(s[1..]) + {s[0]};
    }
  }

  lemma AppendLarger(r: seq<Label>, x: Label)
    requires StrictlySorted(r) && (r == [] || r[|r| - 1] < x)
    ensures StrictlySorted(r + [x]) && ToSet(r + [x]) == ToSet(r) + {x}
  {
  }

  /** Building a label set from a vector keeps exactly the labels it holds and
      leaves them strictly increasing. The loop is Vec::dedup. */
  method FromVec(labels: seq<Label>) returns (r: LabelSet)
    ensures ToSet(r) == ToSet(labels)
  {
    var sorted := Sort(labels);
    SortSorts(labels);
    r := [];
    for i := 0 to |sorted|
      invariant ToSet(r) == ToSet(sorted[..i])
      invariant i == 0 ==> r == []
      invariant i > 0 ==> r != [] && r[|r| - 1] == sorted[i - 1]
    {
      hide ToSet;
      assert i > 0 ==> sorted[i - 1] <= sorted[i];
      PrefixElements(sorted, i);
      if r == [] || r[|r| - 1] != sorted[i] {
        AppendLarger(r, sorted[i]);
        r := r + [sorted[i]];
      } else {
        LastElement(r);
      }
    }
    assert sorted[..|sorted|] == sorted;
  }

  lemma PrefixElements(s: seq<Label>, i: nat)
    requires i < |s|
    ensures ToSet(s[..i + 1]) == ToSet(s[..i]) + {s[i]}
  {
    assert s[..i + 1] == s[..i] + [s[i]];
  }

  lemma LastElement(s: seq<Label>)
    requires s != []
    ensures ToSet(s) == ToSet(s) + {s[|s| - 1]}
  {
  }

  lemma NoElements(s: seq<Label>)
    ensures ToSet(s) == {} <==> s == []
  {
    if s != [] {
      assert s[0] in ToSet(s);
    }
  }

  /** The stored form is canonical: equal sets have equal vectors. */
  lemma {:induction false} StrictlySortedIsCanonical(a: LabelSet, b: LabelSet)
    requires ToSet(a) == ToSet(b)
    ensures a == b
  {
    NoElements(a);
    NoElements(b);
    if a == [] {
    } else {
      assert a[0] in ToSet(b);
      assert b[0] in ToSet(a);
      assert a[0] == b[0];
      assert ToSet(a[1..]) == ToSet(a) - {a[0]};
      assert ToSet(b[1..]) == ToSet(b) - {b[0]};
      StrictlySortedIsCanonical(a[1..], b[1..]);
      assert a == [a[0]] + a[1..] && b == [b[0]] + b[1..];
    }
  }

  // ----- the walks -----

  /** A pair behind either cursor that matches has already been found in `c`,
      and `k` never runs past a label of `c` that could still be needed. */
  method ContainsIntersection(c: LabelSet, a: LabelSet, b: LabelSet) returns (r: bool)
    ensures r == Covers(c, a, b)
  {
    var i, j, k := 0, 0, 0;
    while i < |a| && j < |b|
      invariant i <= |a| && j <= |b| && k <= |c|
      invariant forall m, n :: 0 <= m < |a| && 0 <= n < |b| && (m < i || n < j) && a[m] == b[n] ==> a[m] in c
      invariant k > 0 && i < |a| ==> c[k - 1] < a[i]
      decreases |a| + |b| - i - j
    {
      if a[i] == b[j] {
        while k < |c| && c[k] < a[i]
          invariant k <= |c|
          invariant k > 0 ==> c[k - 1] < a[i]
        {
          k := k + 1;
        }
        if k == |c| || c[k] > a[i] {
          assert a[i] in ToSet(a) * ToSet(b);
          return false;
        }
        i := i + 1;
        j := j + 1;
      } else if a[i] < b[j] {
        i := i + 1;
      } else {
        j := j + 1;
      }
    }
    r := true;
  }

  method Overlaps(a: LabelSet, b: LabelSet) returns (r: bool)
    ensures r == Overlap(a, b)
  {
    var i, j := 0, 0;
    while i < |a| && j < |b|
      invariant i <= |a| && j <= |b|
      invariant forall m, n :: 0 <= m < |a| && 0 <= n < |b| && (m < i || n < j) ==> a[m] != b[n]
      decreases |a| + |b| - i - j
    {
      if a[i] == b[j] {
        assert a[i] in a && a[i] in b;
        return true;
      } else if a[i] < b[j] {
        i := i + 1;
      } else {
        j := j + 1;
      }
    }
    r := false;
  }
}
