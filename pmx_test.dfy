/** The behaviour the unit tests of the Partially Mapped Crossover pin down,
    proved of the model: the two refusals and the full 8-gene example. */
module PartiallyMappedCrossoverTest {
  import opened Chromosomes
  import opened Wrappers
  import opened MappingChain
  import opened PartiallyMappedCrossover

  /** The parents of the 8-gene example. */
  const PARENT1: seq<int> := [1, 2, 3, 4, 5, 6, 7, 8]
  const PARENT2: seq<int> := [3, 7, 5, 1, 6, 8, 2, 4]

  /** The mapping chains of the example that take two hops: position 7 of the
      first offspring goes 8 -> 6 -> 5, position 2 of the second 5 -> 6 -> 8. */
  lemma TwoHopChains()
    ensures Crossable(PARENT1, PARENT2, 3, 5) && Crossable(PARENT2, PARENT1, 3, 5)
    ensures Trail(PARENT1, PARENT2, 3, 5, 7, {}) == [7, 5, 4]
    ensures MappedValue(PARENT1, PARENT2, 3, 5, 7) == 5
    ensures Trail(PARENT2, PARENT1, 3, 5, 2, {}) == [2, 4, 5]
    ensures MappedValue(PARENT2, PARENT1, 3, 5, 2) == 8
  {
    FirstOffspringChain();
    SecondOffspringChain();
  }

  /** Position 7 of the first offspring: 8 -> 6 -> 5. */
  lemma FirstOffspringChain()
    ensures Crossable(PARENT1, PARENT2, 3, 5)
    ensures Trail(PARENT1, PARENT2, 3, 5, 7, {}) == [7, 5, 4]
    ensures MappedValue(PARENT1, PARENT2, 3, 5, 7) == 5
  {
    assert Distinct(PARENT1);
    assert SegmentIndex(PARENT2, 3, 5, 8) == Some(5);
    assert SegmentIndex(PARENT2, 3, 5, 6) == Some(4);
    assert SegmentIndex(PARENT2, 3, 5, 5) == None;
    MappedValueOfWalk(PARENT1, PARENT2, 3, 5, 7, [7, 5, 4]);
  }

  /** Position 2 of the second offspring: 5 -> 6 -> 8. */
  lemma SecondOffspringChain()
    ensures Crossable(PARENT2, PARENT1, 3, 5)
    ensures Trail(PARENT2, PARENT1, 3, 5, 2, {}) == [2, 4, 5]
    ensures MappedValue(PARENT2, PARENT1, 3, 5, 2) == 8
  {
    assert Distinct(PARENT2);
    assert SegmentIndex(PARENT1, 3, 5, 5) == Some(4);
    assert SegmentIndex(PARENT1, 3, 5, 6) == Some(5);
    assert SegmentIndex(PARENT1, 3, 5, 8) == None;
    MappedValueOfWalk(PARENT2, PARENT1, 3, 5, 2, [2, 4, 5]);
  }

  /** The offspring of the example for the segment [3, 5]. */
  lemma ParentsWith8GenesOffspring()
    ensures Crossable(PARENT1, PARENT2, 3, 5) && Crossable(PARENT2, PARENT1, 3, 5)
    ensures Offspring(PARENT1, PARENT2, 3, 5) == [4, 2, 3, 1, 6, 8, 7, 5]
    ensures Offspring(PARENT2, PARENT1, 3, 5) == [3, 7, 8, 4, 5, 6, 2, 1]
  {
    FirstOffspring();
    SecondOffspring();
  }

  /** The first offspring: base parent 1, donor segment [1, 6, 8]. */
  lemma FirstOffspring()
    ensures Crossable(PARENT1, PARENT2, 3, 5)
    ensures Offspring(PARENT1, PARENT2, 3, 5) == [4, 2, 3, 1, 6, 8, 7, 5]
  {
    FirstOffspringChain();
    forall k | 0 <= k < 8 && !(3 <= k <= 5)
      ensures MappedValue(PARENT1, PARENT2, 3, 5, k) == [4, 2, 3, 1, 6, 8, 7, 5][k]
    {
      FirstOffspringGene(k);
    }
    OffspringByGenes(PARENT1, PARENT2, 3, 5, [4, 2, 3, 1, 6, 8, 7, 5]);
  }

  /** The gene of the first offspring at one position outside the segment. */
  lemma FirstOffspringGene(k: nat)
    requires k < 8 && !(3 <= k <= 5)
    ensures Crossable(PARENT1, PARENT2, 3, 5)
    ensures MappedValue(PARENT1, PARENT2, 3, 5, k) == [4, 2, 3, 1, 6, 8, 7, 5][k]
  {
    FirstOffspringChain();
    if k == 0 {
      assert SegmentIndex(PARENT2, 3, 5, 1) == Some(3);
      assert SegmentIndex(PARENT2, 3, 5, 4) == None;
      MappedValueOfWalk(PARENT1, PARENT2, 3, 5, 0, [0, 3]);
    } else if k == 1 {
      assert SegmentIndex(PARENT2, 3, 5, 2) == None;
    } else if k == 2 {
      assert SegmentIndex(PARENT2, 3, 5, 3) == None;
    } else if k == 6 {
      assert SegmentIndex(PARENT2, 3, 5, 7) == None;
    }
  }

  /** The second offspring: base parent 2, donor segment [4, 5, 6]. */
  lemma SecondOffspring()
    ensures Crossable(PARENT2, PARENT1, 3, 5)
    ensures Offspring(PARENT2, PARENT1, 3, 5) == [3, 7, 8, 4, 5, 6, 2, 1]
  {
    SecondOffspringChain();
    forall k | 0 <= k < 8 && !(3 <= k <= 5)
      ensures MappedValue(PARENT2, PARENT1, 3, 5, k) == [3, 7, 8, 4, 5, 6, 2, 1][k]
    {
      SecondOffspringGene(k);
    }
    OffspringByGenes(PARENT2, PARENT1, 3, 5, [3, 7, 8, 4, 5, 6, 2, 1]);
  }

  /** The gene of the second offspring at one position outside the segment. */
  lemma SecondOffspringGene(k: nat)
    requires k < 8 && !(3 <= k <= 5)
    ensures Crossable(PARENT2, PARENT1, 3, 5)
    ensures MappedValue(PARENT2, PARENT1, 3, 5, k) == [3, 7, 8, 4, 5, 6, 2, 1][k]
  {
    SecondOffspringChain();
    if k == 0 {
      assert SegmentIndex(PARENT1, 3, 5, 3) == None;
    } else if k == 1 {
      assert SegmentIndex(PARENT1, 3, 5, 7) == None;
    } else if k == 6 {
      assert SegmentIndex(PARENT1, 3, 5, 2) == None;
    } else if k == 7 {
      assert SegmentIndex(PARENT1, 3, 5, 4) == Some(3);
      assert SegmentIndex(PARENT1, 3, 5, 1) == None;
      MappedValueOfWalk(PARENT2, PARENT1, 3, 5, 7, [7, 3]);
    }
  }

  /** The provider of the 8-gene test: asked for unique integers, it answers 3
      and 5. */
  function UniqueIntsStub(count: nat, min: int, max: int): seq<int> {
    [3, 5]
  }

  /** The 8-gene parents pass validation, and the stub's answer to the request
      (2, 0, 8) keeps the provider's contract and selects the segment [3, 5]. */
  lemma ParentsWith8GenesRequest()
    ensures Validate(PARENT1, PARENT2) == None
    ensures Randomizations.AnswersUniqueInts(UniqueIntsStub, 2, 0, 8)
    ensures CutPoints(UniqueIntsStub(2, 0, 8), 8) == (3, 5)
  {
    ParentsWith8GenesOffspring();
    assert Randomizations.UniqueInts([3, 5], 2, 0, 8);
  }

  /** Parents of a single gene are refused as too short; the provider is never
      consulted. */
  method CrossChromosomeLengthLowerThan3() returns (error: CrossoverError)
    ensures error == TooShort(1)
  {
    var chromosome := new int[1];
    var result := Cross(chromosome, chromosome, UniqueIntsStub);
    return result.error;
  }

  /** A second parent that repeats genes 1 and 3 is refused as not ordered. */
  method CrossParentWithNoOrderedGenes() returns (error: CrossoverError)
    ensures error == RepeatedGenes
  {
    var chromosome1 := new int[] [1, 2, 3, 4, 5, 6, 7, 8];
    var chromosome2 := new int[] [3, 7, 5, 1, 1, 8, 2, 3];
    assert chromosome2[..] == [3, 7, 5, 1, 1, 8, 2, 3];
    assert chromosome2[3] == chromosome2[4];
    var result := Cross(chromosome1, chromosome2, UniqueIntsStub);
    return result.error;
  }

  /** The 8-gene example: two offspring of eight genes each, with the genes the
      test expects. */
  method CrossParentsWith8Genes() returns (count: nat, length1: nat, length2: nat, genes1: seq<int>, genes2: seq<int>)
    ensures count == 2 && length1 == 8 && length2 == 8
    ensures genes1 == [4, 2, 3, 1, 6, 8, 7, 5]
    ensures genes2 == [3, 7, 8, 4, 5, 6, 2, 1]
  {
    var chromosome1 := new int[] [1, 2, 3, 4, 5, 6, 7, 8];
    var chromosome2 := new int[] [3, 7, 5, 1, 6, 8, 2, 4];
    assert chromosome1[..] == PARENT1 && chromosome2[..] == PARENT2;
    ParentsWith8GenesRequest();
    ParentsWith8GenesOffspring();
    var result := Cross(chromosome1, chromosome2, UniqueIntsStub);
    var actual := result.children;
    count, length1, length2 := |actual|, actual[0].Length, actual[1].Length;
    genes1, genes2 := actual[0][..], actual[1][..];
  }
}
