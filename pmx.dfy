/** The Partially Mapped Crossover operator: it checks the two parents, asks the
    randomization provider for two cut points and builds the two offspring, each
    in a fresh array. */
module PartiallyMappedCrossover {
  import opened Chromosomes
  import opened Wrappers
  import opened Randomizations
  import opened MappingChain

  /** The fewest genes a parent may have. */
  const MIN_CHROMOSOME_LENGTH: nat := 3

  /** Why a crossover is refused. */
  datatype CrossoverError =
    | TooShort(length: nat)  // a parent has fewer than MIN_CHROMOSOME_LENGTH genes; length is its count
    | RepeatedGenes          // a parent is not an ordered chromosome: some gene value repeats

  /** The outcome of one crossover: the offspring, or the error. */
  datatype CrossResult =
    | Crossed(children: seq<array<int>>)
    | Failed(error: CrossoverError)

  /** The verdict on two parents. The length of each is checked before any gene
      is; a short parent is reported with its gene count, the first parent
      first. */
  function Validate(parent1: seq<int>, parent2: seq<int>): (r: Option<CrossoverError>)
    ensures r == None <==>
      |parent1| >= MIN_CHROMOSOME_LENGTH && |parent2| >= MIN_CHROMOSOME_LENGTH && Distinct(parent1) && Distinct(parent2)
    ensures (r.Some? && r.value.TooShort?) <==> |parent1| < MIN_CHROMOSOME_LENGTH || |parent2| < MIN_CHROMOSOME_LENGTH
    ensures r.Some? && r.value.TooShort? ==>
      r.value.length == if |parent1| < MIN_CHROMOSOME_LENGTH then |parent1| else |parent2|
    ensures r == Some(RepeatedGenes) <==>
      |parent1| >= MIN_CHROMOSOME_LENGTH && |parent2| >= MIN_CHROMOSOME_LENGTH && !(Distinct(parent1) && Distinct(parent2))
  {
    if |parent1| < MIN_CHROMOSOME_LENGTH then Some(TooShort(|parent1|))
    else if |parent2| < MIN_CHROMOSOME_LENGTH then Some(TooShort(|parent2|))
    else if !Distinct(parent1) || !Distinct(parent2) then Some(RepeatedGenes)
    else None
  }

  /** The segment chosen by two unique cut points: from the smaller to the
      larger, both included. */
  function CutPoints(cuts: seq<int>, length: nat): (segment: (nat, nat))
    requires UniqueInts(cuts, 2, 0, length)
    ensures segment.0 < segment.1 < length
    ensures (segment.0 == cuts[0] && segment.1 == cuts[1]) || (segment.0 == cuts[1] && segment.1 == cuts[0])
  {
    if cuts[0] < cuts[1] then (cuts[0], cuts[1]) else (cuts[1], cuts[0])
  }

  /** Looks v up in the donor's mapping section [lo, hi], from its first position. */
  method FindInMappingSection(donor: array<int>, lo: nat, hi: nat, v: int) returns (index: Option<nat>)
    requires lo <= hi < donor.Length
    ensures index == SegmentIndex(donor[..], lo, hi, v)
  {
    var j := lo;
    while j <= hi
      invariant lo <= j <= hi + 1
      invariant forall k :: lo <= k < j ==> donor[k] != v
    {
      if donor[j] == v {
        return Some(j);
      }
      j := j + 1;
    }
    return None;
  }

  /** The gene an offspring takes at position i outside the segment: base[i],
      replaced by base[j] for as long as the donor holds it at a position j of
      the mapping section. */
  method MappedGene(base: array<int>, donor: array<int>, lo: nat, hi: nat, i: nat) returns (gene: int)
    requires Crossable(base[..], donor[..], lo, hi) && i < base.Length && !(lo <= i <= hi)
    ensures gene == MappedValue(base[..], donor[..], lo, hi, i)
  {
    gene := base[i];
    ghost var genes, donorGenes := base[..], donor[..];
    ghost var p: nat, visited: set<nat> := i, {};
    var index := FindInMappingSection(donor, lo, hi, gene);
    while index.Some?
      invariant ChainState(genes, donorGenes, lo, hi, p, visited)
      invariant gene == genes[p] && index == SegmentIndex(donorGenes, lo, hi, gene)
      invariant var t := Trail(genes, donorGenes, lo, hi, p, visited);
        genes[t[|t| - 1]] == MappedValue(genes, donorGenes, lo, hi, i)
      decreases Unvisited(lo, hi, visited)
    {
      var j := index.value;
      TrailStep(genes, donorGenes, lo, hi, p, visited, j);
      p, visited := j, visited + {j};
      gene := base[j];
      index := FindInMappingSection(donor, lo, hi, gene);
    }
  }

  /** Builds the offspring on base for the segment [lo, hi], in a fresh array:
      it takes the donor's mapping section verbatim and, everywhere else, its
      base gene sent along the mapping chain. The parents are not changed. The
      offspring is free of repeats when the donor is, and a permutation of the
      base when the two parents hold the same genes. */
  method BuildOffspring(base: array<int>, donor: array<int>, lo: nat, hi: nat) returns (offspring: array<int>)
    requires Crossable(base[..], donor[..], lo, hi)
    ensures fresh(offspring)
    ensures offspring[..] == Offspring(base[..], donor[..], lo, hi)
    ensures Distinct(donor[..]) ==> Distinct(offspring[..])
    ensures Distinct(donor[..]) && multiset(base[..]) == multiset(donor[..]) ==>
      multiset(offspring[..]) == multiset(base[..])
  {
    ghost var genes, donorGenes := base[..], donor[..];
    offspring := new int[base.Length];
    // The donor's mapping section, copied verbatim.
    for k := lo to hi + 1
      invariant forall m :: lo <= m < k ==> offspring[m] == donorGenes[m]
    {
      offspring[k] := donor[k];
    }
    // Every other position: its base gene sent along the mapping chain.
    for i := 0 to base.Length
      invariant forall m :: lo <= m <= hi ==> offspring[m] == donorGenes[m]
      invariant forall m :: 0 <= m < i && !(lo <= m <= hi) ==>
        offspring[m] == MappedValue(genes, donorGenes, lo, hi, m)
    {
      if i < lo || hi < i {
        offspring[i] := MappedGene(base, donor, lo, hi, i);
      }
    }
    OffspringByGenes(genes, donorGenes, lo, hi, offspring[..]);
    if Distinct(donorGenes) {
      OffspringDistinct(genes, donorGenes, lo, hi);
      if multiset(genes) == multiset(donorGenes) {
        OffspringIsPermutation(genes, donorGenes, lo, hi);
      }
    }
  }

  /** Crosses two parents. On success there are exactly two offspring, each a
      fresh array: the first built on parent1 with parent2's segment, the second
      on parent2 with parent1's segment, for the segment between the two cut
      points the provider returns for the request (2, 0, length). Neither parent
      is changed. */
  method Cross(parent1: array<int>, parent2: array<int>, uniqueInts: (nat, int, int) -> seq<int>)
    returns (result: CrossResult)
    requires parent1.Length == parent2.Length
    requires AnswersUniqueInts(uniqueInts, 2, 0, parent1.Length)
    ensures Validate(parent1[..], parent2[..]).Some? ==> result == Failed(Validate(parent1[..], parent2[..]).value)
    ensures Validate(parent1[..], parent2[..]).None? ==>
      && result.Crossed? && |result.children| == 2
      && fresh(result.children[0]) && fresh(result.children[1])
      && var segment := CutPoints(uniqueInts(2, 0, parent1.Length), parent1.Length);
         && result.children[0][..] == Offspring(parent1[..], parent2[..], segment.0, segment.1)
         && result.children[1][..] == Offspring(parent2[..], parent1[..], segment.0, segment.1)
    ensures result.Crossed? ==>
      |result.children| == 2 && Distinct(result.children[0][..]) && Distinct(result.children[1][..])
    ensures result.Crossed? ==> |result.children| == 2 && result.children[0] != result.children[1]
  {
    if parent1.Length < MIN_CHROMOSOME_LENGTH {
      return Failed(TooShort(parent1.Length));
    }
    var repeated1 := HasRepeatedGene(parent1);
    var repeated2 := HasRepeatedGene(parent2);
    if repeated1 || repeated2 {
      return Failed(RepeatedGenes);
    }

    var length := parent1.Length;
    var segment := CutPoints(uniqueInts(2, 0, length), length);
    var offspring1 := BuildOffspring(parent1, parent2, segment.0, segment.1);
    var offspring2 := BuildOffspring(parent2, parent1, segment.0, segment.1);
    return Crossed([offspring1, offspring2]);
  }
}
