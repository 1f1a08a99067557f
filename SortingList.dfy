/** What every sorting medium promises about its buffer of bars, independent of how
    the medium is instrumented: sortedness, the single-cell effects of swap and set,
    the scan behind `isSorted`, and the shuffle behind `randomize`. */
module SortingList {
  import opened BarPlugin

  /** The sort keys of a buffer, left to right. */
  function Positions(s: seq<Bar>): (p: seq<nat>)
    ensures |p| == |s|
    ensures forall k :: 0 <= k < |s| ==> p[k] == s[k].position
  {
    seq(|s|, k requires 0 <= k < |s| => s[k].position)
  }

  /** A buffer is sorted when positions never decrease from left to right. */
  predicate Sorted(s: seq<Bar>)
  {
    forall i, j :: 0 <= i < j < |s| ==> s[i].position <= s[j].position
  }

  /** The left-to-right reading: every position is at least its left neighbour. */
  predicate AdjacentSorted(s: seq<Bar>)
  {
    forall k :: 0 < k < |s| ==> s[k - 1].position <= s[k].position
  }

  /** Checking neighbours only, as a scan does, decides sortedness of the whole buffer. */
  lemma {:induction false} SortedIffAdjacent(s: seq<Bar>)
    ensures Sorted(s) <==> AdjacentSorted(s)
  {
    if |s| > 1 {
      SortedIffAdjacent(s[1..]);
      if AdjacentSorted(s) {
        assert AdjacentSorted(s[1..]) by {
          forall k | 0 < k < |s[1..]|
            ensures s[1..][k - 1].position <= s[1..][k].position
          {
            assert s[1..][k - 1] == s[k] && s[1..][k] == s[k + 1];
          }
        }
        forall i, j | 0 <= i < j < |s|
          ensures s[i].position <= s[j].position
        {
          if i > 0 {
            assert s[1..][i - 1] == s[i] && s[1..][j - 1] == s[j];
          } else if j > 1 {
            assert s[1..][0] == s[1] && s[1..][j - 1] == s[j];
          }
        }
      }
    }
  }

  /** A strictly descending buffer of two or more bars is not sorted. */
  lemma DescendingNotSorted(s: seq<Bar>)
    requires |s| > 1
    requires forall k :: 0 < k < |s| ==> s[k - 1].position > s[k].position
    ensures !Sorted(s)
  {
    assert s[0].position > s[1].position;
  }

  predicate NonDecreasing(p: seq<nat>)
  {
    forall i, j :: 0 <= i < j < |p| ==> p[i] <= p[j]
  }

  /** The first value of a non-decreasing sequence is its smallest. */
  lemma HeadIsLeast(p: seq<nat>, x: nat)
    requires NonDecreasing(p) && x in multiset(p)
    ensures p[0] <= x
  {
    var i :| 0 <= i < |p| && p[i] == x;
  }

  lemma TailNonDecreasing(p: seq<nat>)
    requires NonDecreasing(p) && p != []
    ensures NonDecreasing(p[1..])
  {
    forall a, b | 0 <= a < b < |p[1..]| ensures p[1..][a] <= p[1..][b] {
      assert p[1..][a] == p[a + 1] && p[1..][b] == p[b + 1];
    }
  }

  lemma TailMultiset(p: seq<nat>)
    requires p != []
    ensures multiset(p[1..]) == multiset(p) - multiset{p[0]}
  {
    assert p == [p[0]] + p[1..];
    assert multiset(p) == multiset{p[0]} + multiset(p[1..]);
  }

  /** Two non-decreasing sequences holding the same values are the same sequence. */
  lemma {:induction false} NonDecreasingUnique(p: seq<nat>, q: seq<nat>)
    requires NonDecreasing(p) && NonDecreasing(q)
    requires multiset(p) == multiset(q)
    ensures p == q
    decreases |p|
  {
    assert |q| == |multiset(q)| == |multiset(p)| == |p|;
    if p != [] {
      assert p[0] in multiset(q) && q[0] in multiset(p);
      HeadIsLeast(p, q[0]);
      HeadIsLeast(q, p[0]);
      TailMultiset(p);
      TailMultiset(q);
      TailNonDecreasing(p);
      TailNonDecreasing(q);
      assert p[0] == q[0];
      assert multiset(p[1..]) == multiset(q[1..]);
      NonDecreasingUnique(p[1..], q[1..]);
      calc {
        p;
        [p[0]] + p[1..];
        [q[0]] + q[1..];
        q;
      }
    }
  }

  /** However a medium's buffer was sorted, the result depends only on which positions
      it holds: two sorted buffers with the same positions list them identically. */
  lemma SortedArrangementUnique(a: seq<Bar>, b: seq<Bar>)
    requires Sorted(a) && Sorted(b)
    requires multiset(Positions(a)) == multiset(Positions(b))
    ensures Positions(a) == Positions(b)
  {
    NonDecreasingUnique(Positions(a), Positions(b));
  }

  /** Every position is at most the buffer length, as for every buffer `GuiVec::new`
      builds. */
  predicate PositionsBounded(s: seq<Bar>)
  {
    forall k :: 0 <= k < |s| ==> s[k].position <= |s|
  }

  /** Swapping keeps the positions within the buffer length. */
  lemma SwappedKeepsBounded(s: seq<Bar>, i: nat, j: nat)
    requires i < |s| && j < |s| && PositionsBounded(s)
    ensures PositionsBounded(Swapped(s, i, j))
  {
  }

  /** `Vec::swap`: exchanges two cells (nothing changes when they are the same cell). */
  function Swapped(s: seq<Bar>, i: nat, j: nat): (r: seq<Bar>)
    requires i < |s| && j < |s|
    ensures |r| == |s| && r[i] == s[j] && r[j] == s[i]
    ensures forall k :: 0 <= k < |s| && k != i && k != j ==> r[k] == s[k]
  {
    s[i := s[j]][j := s[i]]
  }

  /** Swapping permutes the buffer. */
  lemma SwappedPermutes(s: seq<Bar>, i: nat, j: nat)
    requires i < |s| && j < |s|
    ensures multiset(Swapped(s, i, j)) == multiset(s)
  {
  }

  /** Swapping the same two cells again restores the buffer. */
  lemma SwapTwiceRestores(s: seq<Bar>, i: nat, j: nat)
    requires i < |s| && j < |s|
    ensures Swapped(Swapped(s, i, j), i, j) == s
  {
    var r := Swapped(Swapped(s, i, j), i, j);
    assert forall k :: 0 <= k < |s| ==> r[k] == s[k];
  }

  /** `list[i] = elem`: replaces one cell; only that bar leaves the buffer and only
      `elem` enters it. */
  function Updated(s: seq<Bar>, i: nat, elem: Bar): (r: seq<Bar>)
    requires i < |s|
    ensures |r| == |s| && r[i] == elem
    ensures forall k :: 0 <= k < |s| && k != i ==> r[k] == s[k]
  {
    s[i := elem]
  }

  /** Setting a cell takes exactly its old bar out of the buffer and puts `elem` in. */
  lemma UpdatedBars(s: seq<Bar>, i: nat, elem: Bar)
    requires i < |s|
    ensures multiset(Updated(s, i, elem)) == multiset(s) - multiset{s[i]} + multiset{elem}
  {
  }

  /** One buffer mutation an algorithm can ask of a medium. */
  datatype Op = SwapOp(i: nat, j: nat) | SetOp(at: nat, bar: Bar)

  predicate OpInBounds(op: Op, n: nat)
  {
    match op
    case SwapOp(i, j) => i < n && j < n
    case SetOp(at, _) => at < n
  }

  predicate OpsInBounds(ops: seq<Op>, n: nat)
  {
    forall k :: 0 <= k < |ops| ==> OpInBounds(ops[k], n)
  }

  /** The buffer after applying `ops` in order. */
  function Run(s: seq<Bar>, ops: seq<Op>): (r: seq<Bar>)
    requires OpsInBounds(ops, |s|)
    ensures |r| == |s|
    decreases |ops|
  {
    if ops == [] then s
    else
      var next := match ops[0]
        case SwapOp(i, j) => Swapped(s, i, j)
        case SetOp(at, bar) => Updated(s, at, bar);
      Run(next, ops[1..])
  }

  /** The bars that `set` operations write. */
  function Written(ops: seq<Op>): multiset<Bar>
    decreases |ops|
  {
    if ops == [] then multiset{}
    else (match ops[0] case SwapOp(_, _) => multiset{} case SetOp(_, bar) => multiset{bar})
         + Written(ops[1..])
  }

  /** The bars that `set` operations overwrite: for each set, the bar its cell held
      at that point of the run. */
  function Overwritten(s: seq<Bar>, ops: seq<Op>): multiset<Bar>
    requires OpsInBounds(ops, |s|)
    decreases |ops|
  {
    if ops == [] then multiset{}
    else
      var next := match ops[0]
        case SwapOp(i, j) => Swapped(s, i, j)
        case SetOp(at, bar) => Updated(s, at, bar);
      (match ops[0] case SwapOp(_, _) => multiset{} case SetOp(at, _) => multiset{s[at]})
      + Overwritten(next, ops[1..])
  }

  /** Swaps and sets neither invent nor drop a bar on their own: the bars of the result
      together with the bars the sets overwrote are exactly the bars of the buffer
      before together with the bars the sets wrote. */
  lemma {:induction false} RunBalance(s: seq<Bar>, ops: seq<Op>)
    requires OpsInBounds(ops, |s|)
    ensures multiset(Run(s, ops)) + Overwritten(s, ops) == multiset(s) + Written(ops)
    decreases |ops|
  {
    if ops != [] {
      var next := match ops[0]
        case SwapOp(i, j) => Swapped(s, i, j)
        case SetOp(at, bar) => Updated(s, at, bar);
      assert OpsInBounds(ops[1..], |next|) by {
        forall k | 0 <= k < |ops[1..]| ensures OpInBounds(ops[1..][k], |next|) {
          assert ops[1..][k] == ops[k + 1];
        }
      }
      RunBalance(next, ops[1..]);
      var R, O, W := multiset(Run(next, ops[1..])), Overwritten(next, ops[1..]), Written(ops[1..]);
      assert R + O == multiset(next) + W;
      assert Run(s, ops) == Run(next, ops[1..]);
      match ops[0] {
        case SwapOp(i, j) =>
          SwappedPermutes(s, i, j);
          assert Overwritten(s, ops) == O;
          assert Written(ops) == W;
        case SetOp(at, bar) =>
          UpdatedBars(s, at, bar);
          var x := s[at];
          assert x in multiset(s);
          assert Overwritten(s, ops) == multiset{x} + O;
          assert Written(ops) == multiset{bar} + W;
          calc {
            R + (multiset{x} + O);
            (R + O) + multiset{x};
            (multiset(s) - multiset{x} + multiset{bar}) + W + multiset{x};
            ((multiset(s) - multiset{x}) + multiset{x}) + (multiset{bar} + W);
            multiset(s) + (multiset{bar} + W);
          }
      }
    }
  }

  /** Swaps and sets never invent a bar: every bar of the result was in the buffer
      before or was written explicitly. */
  lemma RunKeepsBars(s: seq<Bar>, ops: seq<Op>)
    requires OpsInBounds(ops, |s|)
    ensures multiset(Run(s, ops)) <= multiset(s) + Written(ops)
  {
    RunBalance(s, ops);
  }

  predicate SwapsOnly(ops: seq<Op>)
  {
    forall k :: 0 <= k < |ops| ==> ops[k].SwapOp?
  }

  /** A run of swaps only permutes the buffer. */
  lemma {:induction false} SwapsPermute(s: seq<Bar>, ops: seq<Op>)
    requires OpsInBounds(ops, |s|) && SwapsOnly(ops)
    ensures multiset(Run(s, ops)) == multiset(s)
    decreases |ops|
  {
    if ops != [] {
      var next := Swapped(s, ops[0].i, ops[0].j);
      assert OpsInBounds(ops[1..], |next|) && SwapsOnly(ops[1..]) by {
        forall k | 0 <= k < |ops[1..]|
          ensures OpInBounds(ops[1..][k], |next|) && ops[1..][k].SwapOp?
        {
          assert ops[1..][k] == ops[k + 1];
        }
      }
      SwappedPermutes(s, ops[0].i, ops[0].j);
      SwapsPermute(next, ops[1..]);
    }
  }

  /** The loop behind both `isSorted` implementations: walk left to right remembering
      the previous position, starting from 0 (positions are unsigned, so that start
      rejects nothing), and stop at the first position smaller than its predecessor. */
  method ScanSorted(list: seq<Bar>) returns (sorted: bool)
    ensures sorted <==> Sorted(list)
  {
    var prev: nat := 0;
    var k := 0;
    while k < |list|
      invariant 0 <= k <= |list|
      invariant forall i, j :: 0 <= i < j < k ==> list[i].position <= list[j].position
      invariant if k == 0 then prev == 0 else prev == list[k - 1].position
    {
      if list[k].position < prev {
        assert list[k - 1].position > list[k].position;
        return false;
      }
      prev := list[k].position;
      k := k + 1;
    }
    return true;
  }

  /** The shuffle behind `randomize`, as a Fisher-Yates walk from the last cell down:
      cell `i` is exchanged with cell `draws[i] % (i + 1)`. The random numbers are an
      input of the model. */
  method Shuffle(list: seq<Bar>, draws: seq<nat>) returns (shuffled: seq<Bar>)
    requires |draws| == |list|
    ensures |shuffled| == |list|
    ensures multiset(shuffled) == multiset(list)
  {
    shuffled := list;
    var i := |list|;
    while i > 1
      invariant 0 <= i <= |list|
      invariant |shuffled| == |list|
      invariant multiset(shuffled) == multiset(list)
    {
      i := i - 1;
      SwappedPermutes(shuffled, i, draws[i] % (i + 1));
      shuffled := Swapped(shuffled, i, draws[i] % (i + 1));
    }
  }
}
