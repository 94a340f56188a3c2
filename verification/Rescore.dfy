/** Rescoring a stream of approximately ordered results by exact distance,
    through a window of fixed size. */
module Rescore {
  import opened Pointers
  import opened Sequences

  /** One result of the search and its exact distance, if the heap still has a
      visible tuple for it. */
  datatype StreamItem = StreamItem(heap: ItemPointer, pointer: ItemPointer, exact: Option<real>)

  datatype ResortData = ResortData(heap: ItemPointer, pointer: ItemPointer, distance: real)

  /** The stream items that can be rescored, in stream order. */
  function Rescored(stream: seq<StreamItem>): seq<ResortData> {
    if stream == [] then []
    else
      var last := stream[|stream| - 1];
      Rescored(stream[..|stream| - 1])
      + (if last.exact.Some? then [ResortData(last.heap, last.pointer, last.exact.value)] else [])
  }

  lemma RescoredStep(stream: seq<StreamItem>, n: nat)
    requires n < |stream|
    ensures Rescored(stream[..n + 1]) == Rescored(stream[..n])
      + (if stream[n].exact.Some? then [ResortData(stream[n].heap, stream[n].pointer, stream[n].exact.value)] else [])
  {
    assert stream[..n + 1][..n] == stream[..n];
  }

  lemma {:induction false} RescoredPrefix(stream: seq<StreamItem>, n: nat)
    requires n <= |stream|
    ensures Rescored(stream[..n]) <= Rescored(stream)
    decreases |stream| - n
  {
    if n == |stream| {
      assert stream[..n] == stream;
    } else {
      RescoredStep(stream, n);
      RescoredPrefix(stream, n + 1);
    }
  }

  /** What the window holds when the k-th result (from 0) is chosen: the first
      `size + k` rescored items, less the ones already returned. */
  ghost function Window(rescored: seq<ResortData>, size: nat, out: seq<ResortData>, k: nat): multiset<ResortData>
    requires k <= |out|
  {
    multiset(rescored[..Min(size + k, |rescored|)]) - multiset(out[..k])
  }

  /** The k-th result is an exact minimum of its window. */
  ghost predicate WindowMinimum(rescored: seq<ResortData>, size: nat, out: seq<ResortData>, k: nat)
    requires k < |out|
  {
    && out[k] in Window(rescored, size, out, k)
    && forall x :: x in Window(rescored, size, out, k) ==> out[k].distance <= x.distance
  }

  /** The heap holds what was pulled from the stream and not yet returned. */
  ghost predicate Holds(buffer: multiset<ResortData>, pulled: seq<ResortData>, out: seq<ResortData>) {
    multiset(out) <= multiset(pulled) && buffer == multiset(pulled) - multiset(out)
  }

  ghost predicate AllMinimal(rescored: seq<ResortData>, size: nat, out: seq<ResortData>) {
    forall k :: 0 <= k < |out| ==> WindowMinimum(rescored, size, out, k)
  }

  class ResortIterator {
    const stream: seq<StreamItem>
    const resortSize: nat
    var position: nat
    var resortBuffer: multiset<ResortData>
    ghost var out: seq<ResortData>

    ghost function Pulled(): seq<ResortData>
      reads this
      requires position <= |stream|
    {
      Rescored(stream[..position])
    }

    ghost predicate Valid()
      reads this
    {
      && position <= |stream|
      && (resortSize > 0 ==>
            && |Pulled()| <= resortSize + |out|
            && Holds(resortBuffer, Pulled(), out)
            && AllMinimal(Rescored(stream), resortSize, out))
    }

    constructor (stream: seq<StreamItem>, resortSize: nat)
      ensures Valid() && this.stream == stream && this.resortSize == resortSize && out == [] && position == 0
    {
      this.stream, this.resortSize := stream, resortSize;
      position, resortBuffer, out := 0, multiset{}, [];
    }

    /** Take one item from the stream and, if it has an exact distance, push
        it. */
    method Pull()
      requires Valid() && 0 < resortSize && |resortBuffer| < resortSize && position < |stream|
      modifies this`position, this`resortBuffer
      ensures Valid() && position == old(position) + 1
    {
      hide Holds, AllMinimal, Rescored;
      var next := stream[position];
      RescoredStep(stream, position);
      BufferSize(resortBuffer, Pulled(), out);
      ghost var before := Pulled();
      position := position + 1;
      match next.exact {
        case None =>
          assert Pulled() == before;
        case Some(distance) =>
          var data := ResortData(next.heap, next.pointer, distance);
          PushHolds(resortBuffer, before, out, data);
          resortBuffer := resortBuffer + multiset{data};
      }
    }

    /** Without a window, pass the stream through. Otherwise fill the window,
        then pop a closest item of it; the heap may pop any of several. */
    method NextWithResort() returns (item: Option<(ItemPointer, ItemPointer)>)
      requires Valid()
      modifies this`position, this`resortBuffer, this`out
      ensures Valid()
      ensures resortSize == 0 ==>
        if old(position) < |stream|
        then position == old(position) + 1 && item == Some((stream[old(position)].heap, stream[old(position)].pointer))
        else item.None?
      ensures resortSize > 0 && item.Some? ==>
        exists x :: out == old(out) + [x] && item.value == (x.heap, x.pointer)
      ensures resortSize > 0 && item.None? ==>
        out == old(out) && position == |stream| && resortBuffer == multiset{}
    {
      hide Holds, AllMinimal, Rescored, Window;
      if resortSize == 0 {
        if position == |stream| {
          return None;
        }
        position := position + 1;
        return Some((stream[position - 1].heap, stream[position - 1].pointer));
      }
      while |resortBuffer| < resortSize && position < |stream|
        invariant Valid() && out == old(out)
        decreases |stream| - position
      {
        Pull();
      }
      if resortBuffer == multiset{} {
        return None;
      }
      var closest := PopClosest();
      item := Some((closest.heap, closest.pointer));
    }

    /** Pop a closest item of the window once nothing more fits into it. */
    method PopClosest() returns (closest: ResortData)
      requires Valid() && resortSize > 0 && resortBuffer != multiset{}
      requires |resortBuffer| >= resortSize || position == |stream|
      modifies this`resortBuffer, this`out
      ensures Valid() && out == old(out) + [closest]
    {
      hide Holds, AllMinimal, Rescored;
      closest := Closest(resortBuffer);
      PopStep(stream, position, resortSize, out, resortBuffer, closest);
      resortBuffer := resortBuffer - multiset{closest};
      out := out + [closest];
    }
  }

  /** BinaryHeap::pop under the reversed order. */
  method Closest(buffer: multiset<ResortData>) returns (closest: ResortData)
    requires buffer != multiset{}
    ensures closest in buffer && forall x :: x in buffer ==> closest.distance <= x.distance
  {
    ghost var all := set x | x in buffer;
    var some :| some in buffer;
    assert some in all;
    ClosestExists(all);
    closest :| closest in buffer && forall x :: x in buffer ==> closest.distance <= x.distance;
  }

  lemma BufferSize(buffer: multiset<ResortData>, pulled: seq<ResortData>, out: seq<ResortData>)
    requires Holds(buffer, pulled, out)
    ensures |buffer| == |pulled| - |out|
  {
  }

  lemma PushHolds(buffer: multiset<ResortData>, pulled: seq<ResortData>, out: seq<ResortData>, x: ResortData)
    requires Holds(buffer, pulled, out)
    ensures Holds(buffer + multiset{x}, pulled + [x], out)
  {
    assert multiset(pulled + [x]) == multiset(pulled) + multiset{x};
  }

  lemma PopHolds(buffer: multiset<ResortData>, pulled: seq<ResortData>, out: seq<ResortData>, x: ResortData)
    requires Holds(buffer, pulled, out) && x in buffer
    ensures Holds(buffer - multiset{x}, pulled, out + [x])
  {
    assert multiset(out + [x]) == multiset(out) + multiset{x};
  }

  lemma {:induction false} ClosestExists(s: set<ResortData>)
    requires s != {}
    ensures exists x :: x in s && forall y :: y in s ==> x.distance <= y.distance
    decreases s
  {
    var z :| z in s;
    if s == {z} {
    } else {
      ClosestExists(s - {z});
      var x :| x in s - {z} && forall y :: y in s - {z} ==> x.distance <= y.distance;
      var least := if x.distance <= z.distance then x else z;
      assert least in s && forall y :: y in s ==> y == z || y in s - {z};
    }
  }

  /** The buffer, once filled, is exactly the window of the next result. */
  lemma BufferIsWindow(stream: seq<StreamItem>, position: nat, size: nat, out: seq<ResortData>,
                       buffer: multiset<ResortData>)
    requires position <= |stream| && Holds(buffer, Rescored(stream[..position]), out)
    requires |Rescored(stream[..position])| <= size + |out|
    requires |buffer| >= size || position == |stream|
    ensures buffer == Window(Rescored(stream), size, out, |out|)
  {
    hide Rescored;
    var pulled, all := Rescored(stream[..position]), Rescored(stream);
    RescoredPrefix(stream, position);
    assert stream[..|stream|] == stream;
    BufferSize(buffer, pulled, out);
    assert pulled == all[..Min(size + |out|, |all|)];
    assert out[..|out|] == out;
  }

  /** Taking a closest item from a full window, or from all that is left. */
  lemma PopStep(stream: seq<StreamItem>, position: nat, size: nat, out: seq<ResortData>, buffer: multiset<ResortData>,
                x: ResortData)
    requires position <= |stream| && Holds(buffer, Rescored(stream[..position]), out)
    requires |Rescored(stream[..position])| <= size + |out| && AllMinimal(Rescored(stream), size, out)
    requires |buffer| >= size || position == |stream|
    requires x in buffer && forall y :: y in buffer ==> x.distance <= y.distance
    ensures Holds(buffer - multiset{x}, Rescored(stream[..position]), out + [x])
    ensures AllMinimal(Rescored(stream), size, out + [x])
  {
    hide Holds, AllMinimal, Rescored, Window;
    BufferIsWindow(stream, position, size, out, buffer);
    PopKeepsMinimal(Rescored(stream), size, out, buffer, x);
    PopHolds(buffer, Rescored(stream[..position]), out, x);
  }

  lemma PopKeepsMinimal(rescored: seq<ResortData>, size: nat, out: seq<ResortData>, window: multiset<ResortData>,
                        x: ResortData)
    requires AllMinimal(rescored, size, out) && window == Window(rescored, size, out, |out|)
    requires x in window && forall y :: y in window ==> x.distance <= y.distance
    ensures AllMinimal(rescored, size, out + [x])
  {
    hide Window;
    var next := out + [x];
    forall k | 0 <= k < |next| ensures WindowMinimum(rescored, size, next, k) {
      SameWindow(rescored, size, out, next, k);
      if k < |out| {
        assert WindowMinimum(rescored, size, out, k);
      }
    }
  }

  lemma SameWindow(rescored: seq<ResortData>, size: nat, out: seq<ResortData>, next: seq<ResortData>, k: nat)
    requires out <= next && k <= |out|
    ensures Window(rescored, size, out, k) == Window(rescored, size, next, k)
  {
    assert next[..k] == out[..k];
  }

  // ----- what the caller sees -----

  /** How many items are farther than `d`. */
  function Farther(s: seq<ResortData>, d: real): (n: nat)
    ensures n <= |s|
  {
    if s == [] then 0 else Farther(s[..|s| - 1], d) + if s[|s| - 1].distance > d then 1 else 0
  }

  lemma {:induction false} FartherConcat(a: seq<ResortData>, b: seq<ResortData>, d: real)
    ensures Farther(a + b, d) == Farther(a, d) + Farther(b, d)
  {
    if b == [] {
      assert a + b == a;
    } else {
      FartherConcat(a, b[..|b| - 1], d);
      assert (a + b)[..|a + b| - 1] == a + b[..|b| - 1];
    }
  }

  lemma FartherOfOne(x: ResortData, d: real)
    ensures Farther([x], d) == if x.distance > d then 1 else 0
  {
    assert [x][..0] == [];
  }

  lemma FartherWithout(s: seq<ResortData>, i: nat, d: real)
    requires i < |s|
    ensures Farther(s, d) == Farther(s[..i] + s[i + 1..], d) + if s[i].distance > d then 1 else 0
  {
    FartherOfOne(s[i], d);
    hide Farther;
    var before, one, after := s[..i], [s[i]], s[i + 1..];
    assert s == before + (one + after);
    FartherConcat(before, one + after, d);
    FartherConcat(one, after, d);
    FartherConcat(before, after, d);
  }

  /** If what is left of `p` without `o` is all farther than `d`, at least that
      many items of `p` are; if nothing in `o` is farther, at most that many. */
  lemma {:induction false} FartherOutside(p: seq<ResortData>, o: seq<ResortData>, d: real)
    requires multiset(o) <= multiset(p)
    ensures (forall x :: x in multiset(p) - multiset(o) ==> x.distance > d) ==> Farther(p, d) >= |p| - |o|
    ensures (forall x :: x in o ==> x.distance <= d) ==> Farther(p, d) <= |p| - |o|
    decreases |o|
  {
    hide Farther;
    if o == [] {
      AllFarther(p, d);
    } else {
      var n := |o| - 1;
      var y := o[n];
      assert o[..n + 1] == o;
      TakeOne(o, n);
      assert y in multiset(p);
      var i :| 0 <= i < |p| && p[i] == y;
      var rest := p[..i] + p[i + 1..];
      DropOne(p, i);
      FartherWithout(p, i, d);
      Cancel(multiset(o[..n]), multiset(rest), y);
      FartherOutside(rest, o[..n], d);
      assert forall x :: x in o[..n] ==> x in o;
    }
  }

  lemma Cancel(a: multiset<ResortData>, b: multiset<ResortData>, x: ResortData)
    requires a + multiset{x} <= b + multiset{x}
    ensures a <= b && (b + multiset{x}) - (a + multiset{x}) == b - a
  {
    forall y ensures a[y] <= b[y] {
      assert (a + multiset{x})[y] <= (b + multiset{x})[y];
    }
  }

  lemma TakeOne(s: seq<ResortData>, n: nat)
    requires n < |s|
    ensures multiset(s[..n + 1]) == multiset(s[..n]) + multiset{s[n]}
  {
    assert s[..n + 1] == s[..n] + [s[n]];
  }

  lemma DropOne(s: seq<ResortData>, i: nat)
    requires i < |s|
    ensures multiset(s) == multiset(s[..i] + s[i + 1..]) + multiset{s[i]}
  {
    assert s == s[..i] + [s[i]] + s[i + 1..];
  }

  lemma Split(s: seq<ResortData>, n: nat)
    requires n <= |s|
    ensures multiset(s) == multiset(s[..n]) + multiset(s[n..])
  {
    assert s == s[..n] + s[n..];
  }

  lemma TakeMore(s: seq<ResortData>, n: nat, m: nat)
    requires n <= m <= |s|
    ensures multiset(s[..n]) <= multiset(s[..m])
  {
    Split(s[..m], n);
    assert s[..m][..n] == s[..n];
  }

  lemma {:induction false} AllFarther(s: seq<ResortData>, d: real)
    ensures (forall x :: x in s ==> x.distance > d) ==> Farther(s, d) == |s|
  {
    if s == [] {
    } else {
      AllFarther(s[..|s| - 1], d);
    }
  }

  lemma MinGrows(a: nat, b: nat)
    ensures Min(a, b) <= b && (a > 0 ==> Min(a - 1, b) <= Min(a, b))
  {
  }

  lemma InWindow(rescored: seq<ResortData>, size: nat, out: seq<ResortData>, k: nat)
    requires AllMinimal(rescored, size, out) && k < |out|
    ensures Min(size + k, |rescored|) <= |rescored|
    ensures var window := multiset(rescored[..Min(size + k, |rescored|)]) - multiset(out[..k]);
      out[k] in window && forall x :: x in window ==> out[k].distance <= x.distance
  {
    assert WindowMinimum(rescored, size, out, k);
  }

  /** What has been returned came out of the windows. */
  lemma {:induction false} ReturnedFromWindows(rescored: seq<ResortData>, size: nat, out: seq<ResortData>, k: nat)
    requires AllMinimal(rescored, size, out) && k < |out|
    ensures multiset(out[..k + 1]) <= multiset(rescored[..Min(size + k, |rescored|)])
  {
    hide AllMinimal, Min;
    var before, after := if k == 0 then 0 else Min(size + k - 1, |rescored|), Min(size + k, |rescored|);
    var x := out[k];
    InWindow(rescored, size, out, k);
    MinGrows(size + k, |rescored|);
    if k == 0 {
      assert out[..0] == [];
    } else {
      ReturnedFromWindows(rescored, size, out, k - 1);
    }
    TakeMore(rescored, before, after);
    TakeOne(out, k);
    AddBack(multiset(out[..k]), multiset(rescored[..after]), x);
  }

  lemma AddBack(a: multiset<ResortData>, b: multiset<ResortData>, x: ResortData)
    requires a <= b && x in b - a
    ensures a + multiset{x} <= b
  {
  }

  /** The stream is nearly sorted: less than `size` of the items before any
      item are farther than it. */
  ghost predicate NearlySorted(rescored: seq<ResortData>, size: nat) {
    forall j :: 0 <= j < |rescored| ==> Farther(rescored[..j], rescored[j].distance) < size
  }

  ghost predicate SortedByDistance(out: seq<ResortData>) {
    forall k, m :: 0 <= k < m < |out| ==> out[k].distance <= out[m].distance
  }

  /** Results out of order come from a stream item with `size` farther items
      before it. */
  lemma DisorderShows(rescored: seq<ResortData>, size: nat, out: seq<ResortData>, k: nat, m: nat) returns (j: nat)
    requires size >= 1 && AllMinimal(rescored, size, out) && multiset(out) == multiset(rescored)
    requires k < m < |out| && out[m].distance < out[k].distance
    ensures j < |rescored| && Farther(rescored[..j], rescored[j].distance) >= size
  {
    var n, d := Min(size + k, |rescored|), out[m].distance;
    WindowBelow(rescored, size, out, k);
    OutsideWindow(rescored, size, out, k, m);
    FartherOutside(rescored[..n], out[..k], d);
    hide AllMinimal;
    var rest := rescored[n..];
    var i :| 0 <= i < |rest| && rest[i] == out[m];
    j := n + i;
    assert rescored[j] == out[m];
    FartherPrefix(rescored, n, j, d);
  }

  lemma FartherPrefix(s: seq<ResortData>, n: nat, m: nat, d: real)
    requires n <= m <= |s|
    ensures Farther(s[..n], d) <= Farther(s[..m], d)
  {
    FartherConcat(s[..n], s[n..m], d);
    assert s[..m] == s[..n] + s[n..m];
  }

  /** An item closer than the k-th result, returned after it, was not among the
      items the window had taken from. */
  lemma OutsideWindow(rescored: seq<ResortData>, size: nat, out: seq<ResortData>, k: nat, m: nat)
    requires size >= 1 && AllMinimal(rescored, size, out) && multiset(out) == multiset(rescored)
    requires k < m < |out| && out[m].distance < out[k].distance
    ensures var n := Min(size + k, |rescored|);
      n == size + k && multiset(out[..k]) <= multiset(rescored[..n]) && out[m] in rescored[n..]
  {
    var n := Min(size + k, |rescored|);
    WindowBelow(rescored, size, out, k);
    hide AllMinimal;
    Split(out, k);
    Split(rescored, n);
    assert out[m] == out[k..][m - k];
    InRest(multiset(out[..k]), multiset(out[k..]), multiset(rescored[..n]), multiset(rescored[n..]), out[m]);
  }

  /** The k-th window holds `size` items unless the stream is at its end. */
  lemma WindowBelow(rescored: seq<ResortData>, size: nat, out: seq<ResortData>, k: nat)
    requires AllMinimal(rescored, size, out) && k < |out|
    ensures var n := Min(size + k, |rescored|);
      && multiset(out[..k]) <= multiset(rescored[..n])
      && forall x :: x in multiset(rescored[..n]) - multiset(out[..k]) ==> out[k].distance <= x.distance
  {
    hide AllMinimal, Min;
    InWindow(rescored, size, out, k);
    if k == 0 {
      assert out[..0] == [];
    } else {
      MinGrows(size + k, |rescored|);
      ReturnedFromWindows(rescored, size, out, k - 1);
      TakeMore(rescored, Min(size + k - 1, |rescored|), Min(size + k, |rescored|));
    }
  }

  lemma InRest(o: multiset<ResortData>, later: multiset<ResortData>, p: multiset<ResortData>, q: multiset<ResortData>,
               x: ResortData)
    requires o + later == p + q && o <= p
    ensures x in later && x !in p - o ==> x in q
    ensures x in q ==> x in later
  {
    assert (o + later)[x] == (p + q)[x] && (p - o)[x] == p[x] - o[x];
  }

  lemma SortedOutputNeedsNearlySorted(rescored: seq<ResortData>, size: nat, out: seq<ResortData>, j: nat)
    requires size >= 1 && AllMinimal(rescored, size, out) && multiset(out) == multiset(rescored)
    requires SortedByDistance(out) && j < |rescored|
    ensures Farther(rescored[..j], rescored[j].distance) < size
  {
    var d := rescored[j].distance;
    if j < size {
    } else {
      var k := j + 1 - size;
      assert |out| == |multiset(out)| && |rescored| == |multiset(rescored)|;
      ReturnedFromWindows(rescored, size, out, k - 1);
      var m := LaterResult(rescored, out, j, k);
      assert forall i :: 0 <= i < k ==> out[i].distance <= out[m].distance;
      FartherOutside(rescored[..j], out[..k], d);
    }
  }

  /** An item not yet pulled is among the results still to come. */
  lemma LaterResult(rescored: seq<ResortData>, out: seq<ResortData>, j: nat, k: nat) returns (m: nat)
    requires multiset(out) == multiset(rescored) && j < |rescored| && k <= |out|
    requires multiset(out[..k]) <= multiset(rescored[..j])
    ensures k <= m < |out| && out[m] == rescored[j]
  {
    Split(out, k);
    Split(rescored, j);
    assert rescored[j..][0] == rescored[j];
    InRest(multiset(out[..k]), multiset(out[k..]), multiset(rescored[..j]), multiset(rescored[j..]), rescored[j]);
    assert rescored[j] in multiset(out[k..]);
    var i :| 0 <= i < |out[k..]| && out[k..][i] == rescored[j];
    m := k + i;
  }

  /** How much disorder the window repairs, exactly: the results come out fully
      sorted if and only if fewer than `size` of the items before each item of
      the stream are farther than it. */
  lemma SortedExactlyWhen(rescored: seq<ResortData>, size: nat, out: seq<ResortData>)
    requires size >= 1 && AllMinimal(rescored, size, out) && multiset(out) == multiset(rescored)
    ensures SortedByDistance(out) <==> NearlySorted(rescored, size)
  {
    hide AllMinimal, Farther;
    if SortedByDistance(out) {
      forall j | 0 <= j < |rescored| ensures Farther(rescored[..j], rescored[j].distance) < size {
        SortedOutputNeedsNearlySorted(rescored, size, out, j);
      }
    }
    if NearlySorted(rescored, size) {
      forall k, m | 0 <= k < m < |out| ensures out[k].distance <= out[m].distance {
        if out[m].distance < out[k].distance {
          var _ := DisorderShows(rescored, size, out, k, m);
        }
      }
    }
  }

  /** A close item behind as many farther ones as the window holds: whatever the
      window size is, such a stream does not come out sorted. */
  lemma BuriedItemIsLate(far: seq<ResortData>, close: ResortData, size: nat)
    requires |far| >= size && forall x :: x in far ==> x.distance > close.distance
    ensures !NearlySorted(far + [close], size)
  {
    var stream := far + [close];
    AllFarther(far, close.distance);
    assert stream[..|far|] == far && stream[|far|] == close;
  }

  /** When everything fits the window the output is fully sorted. */
  lemma SmallStreamsAreSorted(rescored: seq<ResortData>, size: nat, out: seq<ResortData>)
    requires |rescored| <= size
    requires AllMinimal(rescored, size, out)
    ensures SortedByDistance(out)
  {
    forall k, m | 0 <= k < m < |out| ensures out[k].distance <= out[m].distance {
      hide AllMinimal;
      InWindow(rescored, size, out, k);
      InWindow(rescored, size, out, m);
      TakeMore(out, k, m);
    }
  }

  /** Results are the rescored items `data`, reduced to their pointers. */
  ghost predicate Points(results: seq<(ItemPointer, ItemPointer)>, data: seq<ResortData>) {
    |results| == |data| && forall k :: 0 <= k < |data| ==> results[k] == (data[k].heap, data[k].pointer)
  }

  /** `data` is a reordering of the rescored stream in which every item is a
      minimum of its window; it is sorted exactly if the stream nearly is. */
  ghost predicate Resorted(stream: seq<StreamItem>, size: nat, data: seq<ResortData>) {
    && multiset(data) == multiset(Rescored(stream))
    && AllMinimal(Rescored(stream), size, data)
    && (SortedByDistance(data) <==> NearlySorted(Rescored(stream), size))
    && (|Rescored(stream)| <= size ==> SortedByDistance(data))
  }

  /** Draining the iterator returns every rescored item once, the k-th result
      being a minimum of its window. */
  method DrainWithResort(stream: seq<StreamItem>, resortSize: nat) returns (results: seq<(ItemPointer, ItemPointer)>)
    requires resortSize > 0
    ensures exists data :: Points(results, data) && Resorted(stream, resortSize, data)
  {
    hide AllMinimal, Rescored, Holds, SortedByDistance, NearlySorted;
    var it := new ResortIterator(stream, resortSize);
    results := [];
    ghost var data: seq<ResortData> := [];
    assert stream[..|stream|] == stream;
    while true
      invariant fresh(it) && it.Valid() && it.stream == stream && it.resortSize == resortSize && data == it.out
      invariant Points(results, data)
      decreases |Rescored(stream)| - |data|
    {
      var item := it.NextWithResort();
      BufferSize(it.resortBuffer, it.Pulled(), it.out);
      RescoredPrefix(stream, it.position);
      if item.None? {
        NothingLeft(it.Pulled(), it.out);
        SortedExactlyWhen(Rescored(stream), resortSize, data);
        if |Rescored(stream)| <= resortSize {
          SmallStreamsAreSorted(Rescored(stream), resortSize, data);
        }
        assert Resorted(stream, resortSize, data);
        return;
      }
      results := results + [item.value];
      data := it.out;
    }
  }

  lemma NothingLeft(pulled: seq<ResortData>, out: seq<ResortData>)
    requires Holds(multiset{}, pulled, out)
    ensures multiset(out) == multiset(pulled)
  {
    BufferSize(multiset{}, pulled, out);
  }
}
