/** Stage generation (`shuffleRows`) as a function of the random draws: a
    forward Fisher-Yates pass over the identity arrangement of the eight
    rows, the reset of every row from `nRandRows[stage]` on to its own index,
    and the guard that turns a fully sorted result into one with row 0 showing
    slice 1. */
module Stage {

  const MaxRows: nat := 8

  /** `nRandRows`: how many leading rows keep their shuffled value, by stage
      index within the level. */
  const NRandRowsTable: seq<int> := [4, 5, 6, 8]

  function NRandRows(col: int): (n: int)
    requires 0 <= col < |NRandRowsTable|
    ensures 0 < n <= MaxRows
  {
    NRandRowsTable[col]
  }

  function Identity(n: nat): (r: seq<int>)
    ensures |r| == n && forall k :: 0 <= k < n ==> r[k] == k
  {
    seq(n, k => k)
  }

  /** Every row shows its own slice: the solved arrangement. */
  predicate IsIdentity(s: seq<int>)
  {
    forall k :: 0 <= k < |s| ==> s[k] == k
  }

  /** The first `n` rows show their own slice. */
  predicate SortedUpTo(s: seq<int>, n: int)
  {
    forall k :: 0 <= k < n && k < |s| ==> s[k] == k
  }

  lemma SortedUpToStep(s: seq<int>, i: nat)
    requires i < |s|
    ensures SortedUpTo(s, i + 1) == (SortedUpTo(s, i) && s[i] == i)
  {
  }

  predicate InRange(s: seq<int>, n: int)
  {
    forall k :: 0 <= k < |s| ==> 0 <= s[k] < n
  }

  /** The draws `Math.floor(Math.random() * (8 - i))` of one Fisher-Yates
      pass: draw `i` lies in `[0, 8 - i)`, so step `i` swaps with a row in `[i, 8)`. */
  predicate ValidDraws(draws: seq<int>)
  {
    |draws| == MaxRows && forall i :: 0 <= i < MaxRows ==> 0 <= draws[i] < MaxRows - i
  }

  function Swap(s: seq<int>, i: nat, j: nat): (r: seq<int>)
    requires i < |s| && j < |s|
    ensures |r| == |s|
  {
    s[i := s[j]][j := s[i]]
  }

  lemma SwapPermutes(s: seq<int>, i: nat, j: nat)
    requires i < |s| && j < |s|
    ensures multiset(Swap(s, i, j)) == multiset(s)
  {
  }

  /** The arrangement after the first `n` steps of the Fisher-Yates loop. */
  function ShufflePrefix(draws: seq<int>, n: nat): (r: seq<int>)
    requires ValidDraws(draws) && n <= MaxRows
    ensures |r| == MaxRows
    decreases n
  {
    if n == 0 then Identity(MaxRows)
    else Swap(ShufflePrefix(draws, n - 1), n - 1, n - 1 + draws[n - 1])
  }

  /** Each step of the pass is a swap, so the rows stay a permutation of `0 .. 7`. */
  lemma {:induction false} ShufflePrefixPermutes(draws: seq<int>, n: nat)
    requires ValidDraws(draws) && n <= MaxRows
    ensures multiset(ShufflePrefix(draws, n)) == multiset(Identity(MaxRows))
  {
    if n > 0 {
      ShufflePrefixPermutes(draws, n - 1);
      SwapPermutes(ShufflePrefix(draws, n - 1), n - 1, n - 1 + draws[n - 1]);
    }
  }

  function FisherYates(draws: seq<int>): seq<int>
    requires ValidDraws(draws)
  {
    ShufflePrefix(draws, |draws|)
  }

  /** Rows `from` and above are set back to their own index. */
  function ResetTail(s: seq<int>, from: int): seq<int>
  {
    seq(|s|, k requires 0 <= k < |s| => if k >= from then k else s[k])
  }

  /** A sorted arrangement gets slice 1 in row 0. */
  function GuardSorted(s: seq<int>): seq<int>
    requires |s| > 0
  {
    if IsIdentity(s) then s[0 := 1] else s
  }

  /** The arrangement `shuffleRows` leaves for stage `col` before the guard. */
  function Unguarded(draws: seq<int>, col: int): seq<int>
    requires ValidDraws(draws) && 0 <= col < |NRandRowsTable|
  {
    ResetTail(FisherYates(draws), NRandRows(col))
  }

  /** The arrangement `shuffleRows` leaves for stage `col`: eight rows, each
      showing a slice in `[0, 8)`, the rows from `nRandRows[col]` on showing
      their own slice, and never the solved arrangement. */
  function GenerateStage(draws: seq<int>, col: int): (r: seq<int>)
    requires ValidDraws(draws) && 0 <= col < |NRandRowsTable|
    ensures |r| == MaxRows && InRange(r, MaxRows)
    ensures forall k :: NRandRows(col) <= k < MaxRows ==> r[k] == k
    ensures !IsIdentity(r)
  {
    ShufflePrefixPermutes(draws, |draws|);
    PermutationInRange(FisherYates(draws), MaxRows);
    var pre := Unguarded(draws, col);
    assert |pre| == MaxRows && InRange(pre, MaxRows);
    assert !IsIdentity(pre[0 := 1]) by {
      assert pre[0 := 1][0] != 0;
    }
    GuardSorted(pre)
  }

  /** A permutation of `0 .. n-1` holds only values in `[0, n)`. */
  lemma PermutationInRange(r: seq<int>, n: nat)
    requires multiset(r) == multiset(Identity(n))
    ensures InRange(r, n)
  {
    forall k | 0 <= k < |r| ensures 0 <= r[k] < n {
      assert r[k] in multiset(r);
      assert r[k] in Identity(n);
    }
  }

  /** The guard changes the arrangement only when it is sorted, and then only
      row 0, to slice 1. */
  lemma GuardOnlyWhenSorted(draws: seq<int>, col: int)
    requires ValidDraws(draws) && 0 <= col < |NRandRowsTable|
    ensures var pre, r := Unguarded(draws, col), GenerateStage(draws, col);
      && (IsIdentity(pre) ==> r == pre[0 := 1] && r[0] == 1)
      && (!IsIdentity(pre) ==> r == pre)
  {
  }

  /** In the last stage no row is reset, so unless the pass happened to leave
      the rows sorted the stage is a permutation of `0 .. 7`. */
  lemma LastStageIsPermutation(draws: seq<int>)
    requires ValidDraws(draws) && !IsIdentity(FisherYates(draws))
    ensures multiset(GenerateStage(draws, 3)) == multiset(Identity(MaxRows))
  {
    var fy := FisherYates(draws);
    ShufflePrefixPermutes(draws, |draws|);
    assert |fy| == NRandRows(3);
    assert Unguarded(draws, 3) == fy;
    GuardOnlyWhenSorted(draws, 3);
  }

  const ZeroDraws: seq<int> := [0, 0, 0, 0, 0, 0, 0, 0]

  lemma {:induction false} ZeroDrawsKeepIdentity(n: nat)
    requires n <= MaxRows
    ensures ShufflePrefix(ZeroDraws, n) == Identity(MaxRows)
  {
    if n > 0 {
      ZeroDrawsKeepIdentity(n - 1);
    }
  }

  /** Draws that are all zero leave the pass sorted, so the guard fires: every
      stage starts with row 0 showing slice 1 and the other rows sorted. */
  lemma AllZeroDraws(col: int)
    requires 0 <= col < |NRandRowsTable|
    ensures GenerateStage(ZeroDraws, col) == [1, 1, 2, 3, 4, 5, 6, 7]
  {
    ZeroDrawsKeepIdentity(|ZeroDraws|);
    assert Unguarded(ZeroDraws, col) == Identity(MaxRows);
  }

  /** The draws that swap slice 7 into row 0 and then leave every row where it is. */
  const SevenThenZeros: seq<int> := [7, 0, 0, 0, 0, 0, 0, 0]

  lemma {:induction false} SevenThenZerosPrefix(n: nat)
    requires 1 <= n <= MaxRows
    ensures ValidDraws(SevenThenZeros)
    ensures ShufflePrefix(SevenThenZeros, n) == [7, 1, 2, 3, 4, 5, 6, 0]
  {
    if n == 1 {
      assert ShufflePrefix(SevenThenZeros, 0) == [0, 1, 2, 3, 4, 5, 6, 7];
    } else {
      SevenThenZerosPrefix(n - 1);
      assert SevenThenZeros[n - 1] == 0;
    }
  }

  /** After the reset a stage need not be a permutation: the first step may
      swap slice 7 into row 0, and the reset then puts slice 7 back in row 7. */
  lemma ResetCanRepeatASlice()
    ensures ValidDraws(SevenThenZeros)
    ensures GenerateStage(SevenThenZeros, 0) == [7, 1, 2, 3, 4, 5, 6, 7]
    ensures multiset(GenerateStage(SevenThenZeros, 0)) != multiset(Identity(MaxRows))
  {
    SevenThenZerosPrefix(|SevenThenZeros|);
    var pre, r := Unguarded(SevenThenZeros, 0), GenerateStage(SevenThenZeros, 0);
    assert pre == [7, 1, 2, 3, 4, 5, 6, 7];
    assert !IsIdentity(pre) by {
      assert pre[0] != 0;
    }
    GuardOnlyWhenSorted(SevenThenZeros, 0);
    assert 0 !in r;
    assert Identity(MaxRows)[0] == 0;
    assert 0 in multiset(Identity(MaxRows));
  }
}
