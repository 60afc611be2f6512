/**
 The one-pointer pass that cuts a function into basic blocks. It walks the instruction
 starts in order against the ordered leaders and opens a block on each match; the pointer
 only advances on a match.
 */
module BasicBlocks {
  import opened Wrappers
  import opened OrderedSet

  /** How far the leader pointer has come after the first `k` instruction starts. */
  function Pointer(starts: seq<Address>, leaders: seq<Address>, k: nat): (p: nat)
    requires k <= |starts|
    ensures p <= |leaders| && p <= k
  {
    if k == 0 then 0
    else
      var p := Pointer(starts, leaders, k - 1);
      if p < |leaders| && starts[k - 1] == leaders[p] then p + 1 else p
  }

  lemma {:induction false} PointerMonotone(starts: seq<Address>, leaders: seq<Address>, j: nat, k: nat)
    requires j <= k <= |starts|
    ensures Pointer(starts, leaders, j) <= Pointer(starts, leaders, k)
  {
    if j < k {
      PointerMonotone(starts, leaders, j, k - 1);
    }
  }

  // ----- which leaders open a block: any starts, any leaders -----

  /** `s` can be read off `t` from left to right, skipping elements. */
  ghost predicate Subsequence(s: seq<Address>, t: seq<Address>)
    decreases |t|
  {
    if s == [] then true
    else if t == [] then false
    else if s[|s| - 1] == t[|t| - 1] then Subsequence(s[..|s| - 1], t[..|t| - 1])
    else Subsequence(s, t[..|t| - 1])
  }

  lemma {:induction false} SubsequenceShorter(s: seq<Address>, t: seq<Address>)
    requires s != [] && Subsequence(s, t)
    ensures Subsequence(s[..|s| - 1], t)
    decreases |t|, 0
  {
    if s[|s| - 1] == t[|t| - 1] {
      SubsequenceLonger(s[..|s| - 1], t[..|t| - 1], t[|t| - 1]);
      assert t == t[..|t| - 1] + [t[|t| - 1]];
    } else {
      SubsequenceShorter(s, t[..|t| - 1]);
      SubsequenceLonger(s[..|s| - 1], t[..|t| - 1], t[|t| - 1]);
      assert t == t[..|t| - 1] + [t[|t| - 1]];
    }
  }

  lemma {:induction false} SubsequenceLonger(s: seq<Address>, t: seq<Address>, x: Address)
    requires Subsequence(s, t)
    ensures Subsequence(s, t + [x])
    decreases |t|, 1
  {
    assert (t + [x])[..|t|] == t;
    if s != [] && s[|s| - 1] == x {
      SubsequenceShorter(s, t);
    }
  }

  /**
   Whatever the starts and leaders are, the pass opens the longest prefix of the leaders that
   occurs in this order among the starts.
   */
  lemma {:induction false} OpensLongestSubsequence(starts: seq<Address>, leaders: seq<Address>, k: nat)
    requires k <= |starts|
    ensures var p := Pointer(starts, leaders, k);
      Subsequence(leaders[..p], starts[..k]) &&
      (p < |leaders| ==> !Subsequence(leaders[..p + 1], starts[..k]))
  {
    if k > 0 {
      OpensLongestSubsequence(starts, leaders, k - 1);
      var q := Pointer(starts, leaders, k - 1);
      var before := starts[..k - 1];
      assert starts[..k] == before + [starts[k - 1]];
      assert starts[..k][..k - 1] == before;
      if q < |leaders| && starts[k - 1] == leaders[q] {
        assert leaders[..q + 1][..q] == leaders[..q];
        if q + 1 < |leaders| {
          NextStaysOut(leaders, q, before, starts[k - 1]);
        }
      } else {
        SubsequenceLonger(leaders[..q], before, starts[k - 1]);
      }
    }
  }

  lemma NextStaysOut(leaders: seq<Address>, q: nat, before: seq<Address>, x: Address)
    requires q + 1 < |leaders| && !Subsequence(leaders[..q + 1], before)
    ensures !Subsequence(leaders[..q + 2], before + [x])
  {
    var s := leaders[..q + 2];
    assert s[..q + 1] == leaders[..q + 1];
    assert (before + [x])[..|before|] == before;
    if Subsequence(s, before) {
      SubsequenceShorter(s, before);
    }
  }

  // ----- ascending starts and leaders -----

  lemma {:induction false} OpenedAreStarts(starts: seq<Address>, leaders: seq<Address>, k: nat, i: nat)
    requires k <= |starts| && i < Pointer(starts, leaders, k)
    ensures leaders[i] in starts[..k]
  {
    assert starts[k - 1] in starts[..k];
    if i < Pointer(starts, leaders, k - 1) {
      OpenedAreStarts(starts, leaders, k - 1, i);
      assert starts[..k - 1] <= starts[..k];
    }
  }

  lemma {:induction false} StuckOutsideStarts(starts: seq<Address>, leaders: seq<Address>, k: nat)
    requires Ascending(starts) && Ascending(leaders) && k <= |starts|
    ensures var p := Pointer(starts, leaders, k); p < |leaders| ==> leaders[p] !in starts[..k]
  {
    if k > 0 {
      StuckOutsideStarts(starts, leaders, k - 1);
      var p, q := Pointer(starts, leaders, k), Pointer(starts, leaders, k - 1);
      assert starts[..k] == starts[..k - 1] + [starts[k - 1]];
      if q < p < |leaders| {
        assert leaders[p] > starts[k - 1];
      }
    }
  }

  lemma OpenedUpTo(starts: seq<Address>, leaders: seq<Address>, k: nat, i: nat)
    requires Ascending(starts) && k < |starts| && i < Pointer(starts, leaders, k + 1)
    ensures starts[0] <= leaders[i] <= starts[k]
  {
    OpenedAreStarts(starts, leaders, k + 1, i);
    var j :| 0 <= j < k + 1 && starts[j] == leaders[i];
  }

  /** Blocks that are opened behind an instruction have leaders above it. */
  lemma OpenedLater(starts: seq<Address>, leaders: seq<Address>, k: nat, i: nat)
    requires Ascending(starts) && Ascending(leaders) && k < |starts|
    requires Pointer(starts, leaders, k + 1) <= i < Pointer(starts, leaders, |starts|)
    ensures starts[k] < leaders[i]
  {
    var p := Pointer(starts, leaders, k + 1);
    OpenedAreStarts(starts, leaders, |starts|, p);
    assert starts[..|starts|] == starts;
    var l := leaders[p];
    if l <= starts[k] {
      StartsUpTo(starts, k, l);
    }
    StuckOutsideStarts(starts, leaders, k + 1);
  }

  /** Of all opened leaders, those up to an instruction are the ones opened until then. */
  ghost predicate SplitAt(starts: seq<Address>, leaders: seq<Address>, k: nat, p: nat, all: nat)
    requires k < |starts| && p <= all <= |leaders|
  {
    && (forall i :: 0 <= i < p ==> starts[0] <= leaders[i] <= starts[k])
    && (forall i :: p <= i < all ==> starts[k] < leaders[i])
  }

  lemma OpenedSplit(starts: seq<Address>, leaders: seq<Address>, k: nat, p: nat, all: nat)
    requires Ascending(starts) && Ascending(leaders) && k < |starts|
    requires p == Pointer(starts, leaders, k + 1) && all == Pointer(starts, leaders, |starts|)
    ensures p <= all && SplitAt(starts, leaders, k, p, all)
  {
    PointerMonotone(starts, leaders, k + 1, |starts|);
    forall i | 0 <= i < p ensures starts[0] <= leaders[i] <= starts[k] {
      OpenedUpTo(starts, leaders, k, i);
    }
    forall i | p <= i < all ensures starts[k] < leaders[i] {
      OpenedLater(starts, leaders, k, i);
    }
  }

  /** The pass opens exactly the longest prefix of the leaders all of whose members are instruction starts. */
  lemma {:induction false} OpensLongestPrefix(starts: seq<Address>, leaders: seq<Address>)
    requires Ascending(starts) && Ascending(leaders)
    ensures var p := Pointer(starts, leaders, |starts|);
      (forall i :: 0 <= i < p ==> leaders[i] in starts) && (p < |leaders| ==> leaders[p] !in starts)
  {
    var p := Pointer(starts, leaders, |starts|);
    assert starts[..|starts|] == starts;
    forall i | 0 <= i < p ensures leaders[i] in starts {
      OpenedAreStarts(starts, leaders, |starts|, i);
    }
    StuckOutsideStarts(starts, leaders, |starts|);
  }

  /** Leaders above every start change nothing. */
  lemma {:induction false} HighLeadersIgnored(starts: seq<Address>, low: seq<Address>, high: seq<Address>, k: nat)
    requires k <= |starts| && forall x, y :: x in starts && y in high ==> x < y
    ensures Pointer(starts, low + high, k) == Pointer(starts, low, k)
  {
    if k > 0 {
      HighLeadersIgnored(starts, low, high, k - 1);
      var p := Pointer(starts, low, k - 1);
      assert starts[k - 1] in starts;
      assert p == |low| && high != [] ==> (low + high)[p] == high[0] && high[0] in high;
    }
  }

  // ----- the textbook partition -----

  ghost predicate GreatestBelow(leaders: seq<Address>, a: Address, l: Address) {
    l in leaders && l <= a && forall x :: x in leaders && x <= a ==> x <= l
  }

  /** Instruction `k` belongs to a block of this function, the one of the greatest leader not above it. */
  ghost predicate TextbookBlock(starts: seq<Address>, leaders: seq<Address>, k: nat)
    requires k < |starts|
  {
    var p := Pointer(starts, leaders, k + 1);
    p > 0 && GreatestBelow(leaders, starts[k], leaders[p - 1])
  }

  /** Every leader that is not above the last instruction is an instruction start. */
  ghost predicate LeadersAreStarts(starts: seq<Address>, leaders: seq<Address>)
    requires starts != []
  {
    forall l :: l in leaders && l <= starts[|starts| - 1] ==> l in starts
  }

  lemma PointerPassesLeaders(starts: seq<Address>, leaders: seq<Address>, k: nat)
    requires Ascending(starts) && Ascending(leaders) && k < |starts| && LeadersAreStarts(starts, leaders)
    ensures var p := Pointer(starts, leaders, k + 1);
      (forall i :: 0 <= i < p ==> leaders[i] <= starts[k]) && (p < |leaders| ==> starts[k] < leaders[p])
  {
    var p := Pointer(starts, leaders, k + 1);
    forall i | 0 <= i < p ensures leaders[i] <= starts[k] {
      OpenedAreStarts(starts, leaders, k + 1, i);
      var j :| 0 <= j < k + 1 && starts[j] == leaders[i];
    }
    if p < |leaders| && leaders[p] <= starts[k] {
      assert leaders[p] in leaders;
      StartsUpTo(starts, k, leaders[p]);
    }
    StuckOutsideStarts(starts, leaders, k + 1);
  }

  lemma StartsUpTo(starts: seq<Address>, k: nat, a: Address)
    requires Ascending(starts) && k < |starts| && a in starts && a <= starts[k]
    ensures a in starts[..k + 1]
  {
    var j :| 0 <= j < |starts| && starts[j] == a;
    assert starts[..k + 1][j] == a;
  }

  lemma GreatestAt(leaders: seq<Address>, a: Address, p: nat)
    requires Ascending(leaders) && 0 < p <= |leaders| && leaders[p - 1] <= a && (p < |leaders| ==> a < leaders[p])
    ensures GreatestBelow(leaders, a, leaders[p - 1])
  {
    forall x | x in leaders && x <= a ensures x <= leaders[p - 1] {
      var q :| 0 <= q < |leaders| && leaders[q] == x;
      assert q < p;
    }
  }

  lemma LeadersAreStartsPartitions(starts: seq<Address>, leaders: seq<Address>, k: nat)
    requires Ascending(starts) && Ascending(leaders) && k < |starts| && starts[0] in leaders
    requires LeadersAreStarts(starts, leaders)
    ensures TextbookBlock(starts, leaders, k)
  {
    PointerPassesLeaders(starts, leaders, k);
    var p := Pointer(starts, leaders, k + 1);
    var i :| 0 <= i < |leaders| && leaders[i] == starts[0];
    assert p > i;
    GreatestAt(leaders, starts[k], p);
  }

  lemma PartitionNeedsLeadersAreStarts(starts: seq<Address>, leaders: seq<Address>)
    requires Ascending(leaders) && starts != [] && TextbookBlock(starts, leaders, |starts| - 1)
    ensures LeadersAreStarts(starts, leaders)
  {
    var last := starts[|starts| - 1];
    assert starts[..|starts|] == starts;
    forall l | l in leaders && l <= last ensures l in starts {
      var q :| 0 <= q < |leaders| && leaders[q] == l;
      OpenedAreStarts(starts, leaders, |starts|, q);
    }
  }

  lemma {:induction false} PointerPrefix(starts: seq<Address>, leaders: seq<Address>, j: nat, k: nat)
    requires k <= j <= |starts|
    ensures Pointer(starts[..j], leaders, k) == Pointer(starts, leaders, k)
  {
    if k > 0 {
      PointerPrefix(starts, leaders, j, k - 1);
    }
  }

  /**
   An instruction lies in the block of the greatest leader not above it exactly when every leader up to that
   instruction is an instruction start.
   */
  lemma {:induction false} PlacedExactly(starts: seq<Address>, leaders: seq<Address>, k: nat)
    requires Ascending(starts) && Ascending(leaders) && k < |starts| && starts[0] in leaders
    ensures TextbookBlock(starts, leaders, k) <==> LeadersAreStarts(starts[..k + 1], leaders)
  {
    var upTo := starts[..k + 1];
    PointerPrefix(starts, leaders, k + 1, k + 1);
    assert TextbookBlock(upTo, leaders, k) <==> TextbookBlock(starts, leaders, k);
    if LeadersAreStarts(upTo, leaders) {
      LeadersAreStartsPartitions(upTo, leaders, k);
    }
    if TextbookBlock(upTo, leaders, k) {
      PartitionNeedsLeadersAreStarts(upTo, leaders);
    }
  }

  lemma LeadersUpToPrefix(starts: seq<Address>, leaders: seq<Address>, k: nat)
    requires Ascending(starts) && k < |starts|
    ensures LeadersAreStarts(starts[..k + 1], leaders) <==>
      forall l :: l in leaders && l <= starts[k] ==> l in starts
  {
    var upTo := starts[..k + 1];
    forall l | l in starts && l <= starts[k] ensures l in upTo {
      StartsUpTo(starts, k, l);
    }
    assert forall l :: l in upTo ==> l in starts;
  }

  /**
   The partition theorem: every instruction lies in the block of the greatest leader not above
   it exactly when every leader up to the last instruction is an instruction start.
   */
  lemma {:induction false} PartitionExact(starts: seq<Address>, leaders: seq<Address>)
    requires Ascending(starts) && Ascending(leaders) && starts != [] && starts[0] in leaders
    ensures (forall k :: 0 <= k < |starts| ==> TextbookBlock(starts, leaders, k)) <==> LeadersAreStarts(starts, leaders)
  {
    var last := |starts| - 1;
    LeadersUpToPrefix(starts, leaders, last);
    PlacedExactly(starts, leaders, last);
    if LeadersAreStarts(starts, leaders) {
      forall k | 0 <= k < |starts| ensures TextbookBlock(starts, leaders, k) {
        LeadersUpToPrefix(starts, leaders, k);
        PlacedExactly(starts, leaders, k);
      }
    }
  }

  lemma OpensAtLeader(starts: seq<Address>, leaders: seq<Address>, k: nat)
    requires Ascending(starts) && Ascending(leaders) && k < |starts|
    requires Pointer(starts, leaders, k + 1) == Pointer(starts, leaders, k) + 1
    ensures starts[k] in leaders && LeadersAreStarts(starts[..k + 1], leaders)
  {
    var p := Pointer(starts, leaders, k);
    assert leaders[p] == starts[k];
    forall l | l in leaders && l <= starts[k] ensures l in starts[..k + 1] {
      var q :| 0 <= q < |leaders| && leaders[q] == l;
      OpenedAreStarts(starts, leaders, k + 1, q);
    }
  }

  lemma OpensThere(starts: seq<Address>, leaders: seq<Address>, k: nat)
    requires Ascending(starts) && Ascending(leaders) && k < |starts| && LeadersAreStarts(starts[..k + 1], leaders)
    requires starts[k] in leaders
    ensures Pointer(starts, leaders, k + 1) == Pointer(starts, leaders, k) + 1
  {
    var upTo := starts[..k + 1];
    PointerPrefix(starts, leaders, k + 1, k);
    PointerPrefix(starts, leaders, k + 1, k + 1);
    PointerPassesLeaders(upTo, leaders, k);
    var q :| 0 <= q < |leaders| && leaders[q] == starts[k];
    assert Pointer(upTo, leaders, k + 1) > q;
    if q < Pointer(upTo, leaders, k) {
      OpenedUpTo(upTo, leaders, k - 1, q);
    }
  }

  /**
   A block begins at an instruction exactly when the instruction stands on a leader and every leader up to it
   is an instruction start.
   */
  lemma {:induction false} BlockBegins(starts: seq<Address>, leaders: seq<Address>, k: nat)
    requires Ascending(starts) && Ascending(leaders) && k < |starts|
    ensures Pointer(starts, leaders, k + 1) == Pointer(starts, leaders, k) + 1
      <==> starts[k] in leaders && LeadersAreStarts(starts[..k + 1], leaders)
  {
    if Pointer(starts, leaders, k + 1) == Pointer(starts, leaders, k) + 1 {
      OpensAtLeader(starts, leaders, k);
    } else if starts[k] in leaders && LeadersAreStarts(starts[..k + 1], leaders) {
      OpensThere(starts, leaders, k);
    }
  }
}
