/** The mapping chain of the Partially Mapped Crossover (PMX), as specification.

    One offspring is built from a base parent and a donor parent and an inclusive
    segment [lo, hi] of positions. Inside the segment the offspring holds the
    donor's genes. Outside it, position i starts from base[i]; while the current
    value is held by the donor at a segment position j, the value is replaced by
    base[j]. The positions hopped through, starting with i, form the trail of i. */
module MappingChain {
  import opened Chromosomes
  import opened Wrappers

  /** What one offspring's construction needs: parents of one length, a segment
      inside them, and a base parent without repeated genes. */
  predicate Crossable(base: seq<int>, donor: seq<int>, lo: nat, hi: nat) {
    |base| == |donor| && lo <= hi < |base| && Distinct(base)
  }

  /** The first position in [from, hi] at which the donor holds v, if any. */
  function SegmentIndex(donor: seq<int>, from: nat, hi: nat, v: int): (r: Option<nat>)
    requires hi < |donor|
    ensures r.None? <==> forall j :: from <= j <= hi ==> donor[j] != v
    ensures r.Some? ==> from <= r.value <= hi && donor[r.value] == v
    ensures r.Some? ==> forall j :: from <= j < r.value ==> donor[j] != v
    decreases hi + 1 - from
  {
    if from > hi then None
    else if donor[from] == v then Some(from)
    else SegmentIndex(donor, from + 1, hi, v)
  }

  /** The segment positions not visited yet: the measure that the walk of the
      mapping chain shrinks with every hop. */
  function Unvisited(lo: nat, hi: nat, visited: set<nat>): set<nat> {
    set j: nat | lo <= j <= hi && j !in visited
  }

  /** A state of the chain walk: the current value is base[p] and visited holds
      the segment positions hopped to so far. p is outside the segment or
      visited, and the donor value at each visited position is the base value
      of a position other than p that is itself outside the segment or visited.
      This is what keeps the walk from hopping to a visited position twice. */
  ghost predicate ChainState(base: seq<int>, donor: seq<int>, lo: nat, hi: nat, p: nat, visited: set<nat>) {
    && Crossable(base, donor, lo, hi)
    && p < |base|
    && (lo <= p <= hi ==> p in visited)
    && (forall j :: j in visited ==> lo <= j <= hi)
    && (forall j :: j in visited ==>
          exists q :: 0 <= q < |base| && q != p && (lo <= q <= hi ==> q in visited) && donor[j] == base[q])
  }

  /** One hop of the walk lands on a segment position not visited before, and
      the walk is again in a chain state there. */
  lemma Hop(base: seq<int>, donor: seq<int>, lo: nat, hi: nat, p: nat, visited: set<nat>, j: nat)
    requires ChainState(base, donor, lo, hi, p, visited)
    requires SegmentIndex(donor, lo, hi, base[p]) == Some(j)
    ensures j !in visited
    ensures ChainState(base, donor, lo, hi, j, visited + {j})
  {
    assert donor[j] == base[p];
    assert forall q :: 0 <= q < |base| && q != p ==> base[q] != base[p];
    var visited' := visited + {j};
    forall j' | j' in visited'
      ensures exists q :: 0 <= q < |base| && q != j && (lo <= q <= hi ==> q in visited') && donor[j'] == base[q]
    {
      if j' == j {
        assert p != j && (lo <= p <= hi ==> p in visited') && donor[j'] == base[p];
      } else {
        var q :| 0 <= q < |base| && q != p && (lo <= q <= hi ==> q in visited) && donor[j'] == base[q];
        assert q != j && (lo <= q <= hi ==> q in visited');
      }
    }
  }

  /** t is a complete walk of the mapping chain: each position after the first
      is the segment position at which the donor holds the base value of the
      position before it, and the donor holds the last base value nowhere in
      the segment. */
  ghost predicate FollowsMapping(base: seq<int>, donor: seq<int>, lo: nat, hi: nat, t: seq<nat>) {
    && hi < |donor|
    && |t| >= 1
    && (forall m :: 0 <= m < |t| ==> t[m] < |base|)
    && (forall m :: 1 <= m < |t| ==> lo <= t[m] <= hi)
    && (forall m :: 0 <= m < |t| - 1 ==> SegmentIndex(donor, lo, hi, base[t[m]]) == Some(t[m + 1]))
    && SegmentIndex(donor, lo, hi, base[t[|t| - 1]]) == None
  }

  /** The walk of the mapping chain from position p. */
  function Trail(base: seq<int>, donor: seq<int>, lo: nat, hi: nat, p: nat, visited: set<nat>): (t: seq<nat>)
    requires ChainState(base, donor, lo, hi, p, visited)
    ensures FollowsMapping(base, donor, lo, hi, t) && t[0] == p
    decreases Unvisited(lo, hi, visited)
  {
    match SegmentIndex(donor, lo, hi, base[p])
    case None => [p]
    case Some(j) =>
      Hop(base, donor, lo, hi, p, visited, j);
      assert j in Unvisited(lo, hi, visited) - Unvisited(lo, hi, visited + {j});
      [p] + Trail(base, donor, lo, hi, j, visited + {j})
  }

  /** A hop from p to j leaves the end of the walk where it was and shrinks the
      set of unvisited segment positions. */
  lemma TrailStep(base: seq<int>, donor: seq<int>, lo: nat, hi: nat, p: nat, visited: set<nat>, j: nat)
    requires ChainState(base, donor, lo, hi, p, visited)
    requires SegmentIndex(donor, lo, hi, base[p]) == Some(j)
    ensures ChainState(base, donor, lo, hi, j, visited + {j})
    ensures Unvisited(lo, hi, visited + {j}) < Unvisited(lo, hi, visited)
    ensures var t, t' := Trail(base, donor, lo, hi, p, visited), Trail(base, donor, lo, hi, j, visited + {j});
      t[|t| - 1] == t'[|t'| - 1]
  {
    Hop(base, donor, lo, hi, p, visited, j);
    assert j in Unvisited(lo, hi, visited) - Unvisited(lo, hi, visited + {j});
  }

  /** Dropping the first position of a walk that hops at least once leaves a
      walk. */
  lemma FollowsMappingTail(base: seq<int>, donor: seq<int>, lo: nat, hi: nat, t: seq<nat>)
    requires FollowsMapping(base, donor, lo, hi, t) && |t| > 1
    ensures FollowsMapping(base, donor, lo, hi, t[1..])
  {
    forall m | 0 <= m < |t| - 2
      ensures SegmentIndex(donor, lo, hi, base[t[1..][m]]) == Some(t[1..][m + 1])
    {
      assert t[1..][m] == t[m + 1] && t[1..][m + 1] == t[m + 2];
    }
  }

  /** Where a walk goes from its m-th position: on to the next one, or nowhere
      at its end. */
  lemma WalkStep(base: seq<int>, donor: seq<int>, lo: nat, hi: nat, t: seq<nat>, m: nat)
    requires FollowsMapping(base, donor, lo, hi, t) && m < |t|
    ensures SegmentIndex(donor, lo, hi, base[t[m]]) == if m < |t| - 1 then Some(t[m + 1]) else None
  {
  }

  /** The walk of the mapping chain is determined by where it starts: two
      complete walks from the same position are the same walk. */
  lemma {:induction false} WalksAgreeFromStart(base: seq<int>, donor: seq<int>, lo: nat, hi: nat, t1: seq<nat>, t2: seq<nat>)
    requires FollowsMapping(base, donor, lo, hi, t1) && FollowsMapping(base, donor, lo, hi, t2)
    requires t1[0] == t2[0]
    ensures t1 == t2
    decreases |t1|
  {
    WalkStep(base, donor, lo, hi, t1, 0);
    WalkStep(base, donor, lo, hi, t2, 0);
    if |t1| == 1 {
      assert t1 == [t1[0]] && t2 == [t2[0]];
    } else {
      FollowsMappingTail(base, donor, lo, hi, t1);
      FollowsMappingTail(base, donor, lo, hi, t2);
      WalksAgreeFromStart(base, donor, lo, hi, t1[1..], t2[1..]);
      assert t1 == [t1[0]] + t1[1..] && t2 == [t2[0]] + t2[1..];
    }
  }

  /** The gene an offspring holds at position i outside the segment: the end of
      the mapping chain from base[i]. It is a base value the donor holds nowhere
      in the segment, and it is base[i] itself when the donor segment lacks that. */
  function MappedValue(base: seq<int>, donor: seq<int>, lo: nat, hi: nat, i: nat): (v: int)
    requires Crossable(base, donor, lo, hi) && i < |base| && !(lo <= i <= hi)
    ensures forall j :: lo <= j <= hi ==> donor[j] != v
    ensures (forall j :: lo <= j <= hi ==> donor[j] != base[i]) ==> v == base[i]
    ensures v in base
  {
    var t := Trail(base, donor, lo, hi, i, {});
    base[t[|t| - 1]]
  }

  /** Any complete walk from an outside position i is its trail, and its last
      base value is the gene of position i. */
  lemma MappedValueOfWalk(base: seq<int>, donor: seq<int>, lo: nat, hi: nat, i: nat, t: seq<nat>)
    requires Crossable(base, donor, lo, hi) && i < |base| && !(lo <= i <= hi)
    requires FollowsMapping(base, donor, lo, hi, t) && t[0] == i
    ensures Trail(base, donor, lo, hi, i, {}) == t
    ensures MappedValue(base, donor, lo, hi, i) == base[t[|t| - 1]]
  {
    WalksAgreeFromStart(base, donor, lo, hi, Trail(base, donor, lo, hi, i, {}), t);
  }

  /** The offspring built on base with the donor's segment [lo, hi]. */
  function Offspring(base: seq<int>, donor: seq<int>, lo: nat, hi: nat): seq<int>
    requires Crossable(base, donor, lo, hi)
  {
    seq(|base|, k requires 0 <= k < |base| =>
      if lo <= k <= hi then donor[k] else MappedValue(base, donor, lo, hi, k))
  }

  /** A sequence with the offspring's gene at every position is the offspring. */
  lemma OffspringByGenes(base: seq<int>, donor: seq<int>, lo: nat, hi: nat, o: seq<int>)
    requires Crossable(base, donor, lo, hi) && |o| == |base|
    requires forall k :: lo <= k <= hi ==> o[k] == donor[k]
    requires forall k :: 0 <= k < |o| && !(lo <= k <= hi) ==> o[k] == MappedValue(base, donor, lo, hi, k)
    ensures o == Offspring(base, donor, lo, hi)
  {
  }

  /** Inside the segment the offspring holds the donor's genes, and it is as
      long as its parents. */
  lemma SegmentFidelity(base: seq<int>, donor: seq<int>, lo: nat, hi: nat)
    requires Crossable(base, donor, lo, hi)
    ensures |Offspring(base, donor, lo, hi)| == |base|
    ensures forall k :: lo <= k <= hi ==> Offspring(base, donor, lo, hi)[k] == donor[k]
  {
  }

  /** Outside the segment the offspring keeps the base gene when the donor
      segment lacks it; in every case it holds a base value that the donor
      segment lacks. */
  lemma OutsideGenes(base: seq<int>, donor: seq<int>, lo: nat, hi: nat, k: nat)
    requires Crossable(base, donor, lo, hi) && k < |base| && !(lo <= k <= hi)
    ensures Offspring(base, donor, lo, hi)[k] in base
    ensures forall j :: lo <= j <= hi ==> donor[j] != Offspring(base, donor, lo, hi)[k]
    ensures (forall j :: lo <= j <= hi ==> donor[j] != base[k]) ==> Offspring(base, donor, lo, hi)[k] == base[k]
  {
  }

  /** Two complete walks that end at the same position agree when read from the
      end: base has no repeats, so the donor value at a position fixes the
      position the walk hopped from. */
  lemma {:induction false} WalksAgreeFromEnd(base: seq<int>, donor: seq<int>, lo: nat, hi: nat, t1: seq<nat>, t2: seq<nat>, m: nat)
    requires Distinct(base)
    requires FollowsMapping(base, donor, lo, hi, t1) && FollowsMapping(base, donor, lo, hi, t2)
    requires t1[|t1| - 1] == t2[|t2| - 1]
    requires m < |t1| && m < |t2|
    ensures t1[|t1| - 1 - m] == t2[|t2| - 1 - m]
    decreases m
  {
    if m > 0 {
      WalksAgreeFromEnd(base, donor, lo, hi, t1, t2, m - 1);
      var a, b := |t1| - 1 - m, |t2| - 1 - m;
      assert SegmentIndex(donor, lo, hi, base[t1[a]]) == Some(t1[a + 1]);
      assert SegmentIndex(donor, lo, hi, base[t2[b]]) == Some(t2[b + 1]);
      assert base[t1[a]] == base[t2[b]];
    }
  }

  /** Different positions outside the segment end their mapping chains at
      different values. */
  lemma MappedValueInjective(base: seq<int>, donor: seq<int>, lo: nat, hi: nat, i1: nat, i2: nat)
    requires Crossable(base, donor, lo, hi)
    requires i1 < |base| && !(lo <= i1 <= hi) && i2 < |base| && !(lo <= i2 <= hi)
    requires i1 != i2
    ensures MappedValue(base, donor, lo, hi, i1) != MappedValue(base, donor, lo, hi, i2)
  {
    var t1 := Trail(base, donor, lo, hi, i1, {});
    var t2 := Trail(base, donor, lo, hi, i2, {});
    if base[t1[|t1| - 1]] == base[t2[|t2| - 1]] {
      assert t1[|t1| - 1] == t2[|t2| - 1];
      var m := if |t1| < |t2| then |t1| - 1 else |t2| - 1;
      WalksAgreeFromEnd(base, donor, lo, hi, t1, t2, m);
    }
  }

  /** With donor and base free of repeats, so is the offspring. */
  lemma OffspringDistinct(base: seq<int>, donor: seq<int>, lo: nat, hi: nat)
    requires Crossable(base, donor, lo, hi) && Distinct(donor)
    ensures Distinct(Offspring(base, donor, lo, hi))
  {
    var o := Offspring(base, donor, lo, hi);
    forall i, j | 0 <= i < j < |o| ensures o[i] != o[j] {
      if !(lo <= i <= hi) && !(lo <= j <= hi) {
        MappedValueInjective(base, donor, lo, hi, i, j);
      }
    }
  }

  /** When the two parents hold the same genes, the offspring is a permutation
      of them: every gene once, none lost, none repeated. */
  lemma OffspringIsPermutation(base: seq<int>, donor: seq<int>, lo: nat, hi: nat)
    requires Crossable(base, donor, lo, hi) && Distinct(donor)
    requires multiset(base) == multiset(donor)
    ensures Distinct(Offspring(base, donor, lo, hi))
    ensures multiset(Offspring(base, donor, lo, hi)) == multiset(base)
  {
    var o := Offspring(base, donor, lo, hi);
    OffspringDistinct(base, donor, lo, hi);
    forall k | 0 <= k < |o| ensures o[k] in base {
      if lo <= k <= hi {
        assert o[k] == donor[k] && donor[k] in multiset(donor);
      }
    }
    SameGenes(o, base);
  }

  /** A segment that covers every position hands the whole donor over. */
  lemma WholeSegment(base: seq<int>, donor: seq<int>)
    requires |base| > 0 && Crossable(base, donor, 0, |base| - 1)
    ensures Offspring(base, donor, 0, |base| - 1) == donor
  {
  }
}
