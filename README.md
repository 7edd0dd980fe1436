# Partially Mapped Crossover (GeneticSharp), modelled in Dafny

This project models the crossover stage of GeneticSharp for ordered chromosomes: the
Partially Mapped Crossover (PMX). The operator takes two parent chromosomes that encode
permutations and returns two offspring. It works in three steps:

1. It validates the parents. A parent with fewer than 3 genes is refused as too short. A
   parent whose gene values repeat is refused as "not an ordered chromosome". The length
   check comes first.
2. It asks the randomization provider for 2 unique integers from `[0, length)`. The
   segment runs from the smaller to the larger, both ends included.
3. It builds each offspring in a fresh chromosome. The first offspring has parent 1 as its
   base and parent 2 as its donor; the second swaps the roles. Inside the segment the
   offspring takes the donor's genes unchanged. At every other position it starts from the
   base gene. While the donor holds that value at some segment position `j`, the value is
   replaced by `base[j]`. This walk is the mapping chain.

Genes are `int` values and chromosomes are `array<int>`. The specification functions work
on `seq<int>`. The modules:

- `Chromosomes` (chromosomes.dfy): what "no repeated gene" means (`Distinct`), the
  repeated-gene scan, and the lemma that two repeat-free chromosomes of one length, one
  drawing its values from the other, are permutations of each other.
- `Wrappers` (wrappers.dfy): the `Option` datatype, used by the validation verdict and the
  mapping-section lookup.
- `Randomizations` (randomizations.dfy): the randomization provider's contract for a
  request of `count` unique integers from `[min, max)`, with proofs that an answer exists
  exactly when the range holds `count` integers.
- `MappingChain` (mapping_chain.dfy): the specification of one offspring. It covers the
  lookup in the mapping section, the walk of the mapping chain (`Trail`) with its
  termination argument, the gene each outside position receives (`MappedValue`), the whole
  offspring (`Offspring`), and the lemmas about them: segment fidelity, outside genes,
  injectivity of the chain's end, no repeats, and permutation closure.
- `PartiallyMappedCrossover` (pmx.dfy): the operator. `Validate` and `CutPoints` are
  functions. `FindInMappingSection`, `MappedGene` (the mapping-chain `while` loop),
  `BuildOffspring` and `Cross` are methods over arrays.
- `PartiallyMappedCrossoverTest` (pmx_test.dfy): the three unit tests, restated as
  lemmas and as methods that call `Cross`.

The mapping chain terminates because the base parent has no repeats. Each hop lands on a
segment position that has not been visited yet. The loop and `Trail` therefore both
decrease the set of unvisited segment positions (`Unvisited`). The predicate `ChainState`
is the invariant behind this.

An offspring is free of repeats whenever both parents are. It is guaranteed to be a permutation
of its base when, in addition, the two parents hold the same genes
(`multiset(base) == multiset(donor)`). This is sufficient, not necessary: a donor segment
that matches the base segment gives back the base whatever the donor holds elsewhere.
Validation does not check the same-genes condition. The model states it as a separate hypothesis of
`OffspringIsPermutation` and `BuildOffspring` and does not claim validation enforces it.
The test's parents both hold 1..8.

The behaviour modelled is the one the unit test
`src/GeneticSharp.Domain.UnitTests/Crossovers/PartiallyMappedCrossoverTest.cs` pins down.
`PartiallyMappedCrossover.cs`, `CrossoverBase.cs` and the chromosome and randomization
classes are not part of this model.

## Model

| member | source | states |
|---|---|---|
| `Chromosomes.HasRepeatedGene` | src/GeneticSharp.Domain.UnitTests/Crossovers/PartiallyMappedCrossoverTest.cs:56-73 | reports a repeat exactly when some gene value occurs twice in the chromosome |
| `Chromosomes.SameGenes` | src/GeneticSharp.Domain.UnitTests/Crossovers/PartiallyMappedCrossoverTest.cs:124-125 | two repeat-free chromosomes of equal length, the first drawing every value from the second, have the same multiset of genes |
| `Randomizations.UniqueInts` | src/GeneticSharp.Domain.UnitTests/Crossovers/PartiallyMappedCrossoverTest.cs:110-111 | a possible answer to a request for `count` unique integers from [min, max): exactly `count` of them, pairwise distinct, all in range |
| `Randomizations.AnswersUniqueInts` | src/GeneticSharp.Domain.UnitTests/Crossovers/PartiallyMappedCrossoverTest.cs:110-111 | the provider's answer to (count, min, max) is `count` distinct integers in [min, max) whenever the range holds that many |
| `Randomizations.UniqueIntsNeedRoom` | src/GeneticSharp.Domain.UnitTests/Crossovers/PartiallyMappedCrossoverTest.cs:110-111 | a nonempty answer exists only when the range holds `count` integers, so the contract's guard excludes exactly the requests nothing can answer |
| `Randomizations.Ascending` | src/GeneticSharp.Domain.UnitTests/Crossovers/PartiallyMappedCrossoverTest.cs:110-111 | min, ..., min + count - 1 answers every request for `count` integers whose range holds them, so the contract can always be met |
| `MappingChain.SegmentIndex` | src/GeneticSharp.Domain.UnitTests/Crossovers/PartiallyMappedCrossoverTest.cs:128-135 | the result is the first segment position at which the donor holds the value, and it is absent exactly when the donor holds the value nowhere in the segment |
| `MappingChain.Hop` | src/GeneticSharp.Domain.UnitTests/Crossovers/PartiallyMappedCrossoverTest.cs:134-135 | one hop of the mapping chain lands on a segment position not visited before, so the chain cannot cycle |
| `MappingChain.Trail` | src/GeneticSharp.Domain.UnitTests/Crossovers/PartiallyMappedCrossoverTest.cs:134-140 | the trail starts at the given position; each later position is where the donor holds the previous base value; the donor holds the last base value nowhere in the segment |
| `MappingChain.TrailStep` | src/GeneticSharp.Domain.UnitTests/Crossovers/PartiallyMappedCrossoverTest.cs:134-140 | one hop of the loop keeps the walk in a chain state, shrinks the unvisited segment positions and leaves the end of the chain unchanged |
| `MappingChain.WalksAgreeFromStart` | src/GeneticSharp.Domain.UnitTests/Crossovers/PartiallyMappedCrossoverTest.cs:128-140 | the mapping chain is determined by its start: two complete walks from the same position are equal |
| `MappingChain.MappedValueOfWalk` | src/GeneticSharp.Domain.UnitTests/Crossovers/PartiallyMappedCrossoverTest.cs:128-140 | any complete walk from an outside position is that position's trail, and its last base value is the gene there |
| `MappingChain.MappedValue` | src/GeneticSharp.Domain.UnitTests/Crossovers/PartiallyMappedCrossoverTest.cs:128-135 | an outside gene is a base value that the donor segment lacks, and it is the base gene itself when the donor segment lacks that |
| `MappingChain.Offspring` | src/GeneticSharp.Domain.UnitTests/Crossovers/PartiallyMappedCrossoverTest.cs:127-145 | the offspring: the donor's gene at each segment position, `MappedValue` at each outside position, as long as the parents |
| `MappingChain.OffspringByGenes` | src/GeneticSharp.Domain.UnitTests/Crossovers/PartiallyMappedCrossoverTest.cs:127-145 | a sequence with the donor gene at each segment position and the mapped gene at each outside position is the offspring |
| `MappingChain.SegmentFidelity` | src/GeneticSharp.Domain.UnitTests/Crossovers/PartiallyMappedCrossoverTest.cs:131-133 | the offspring has its parents' length and equals the donor on the whole segment |
| `MappingChain.OutsideGenes` | src/GeneticSharp.Domain.UnitTests/Crossovers/PartiallyMappedCrossoverTest.cs:128-135 | outside the segment the offspring holds a base value absent from the donor segment, and keeps the base gene when the donor segment lacks it |
| `MappingChain.WalksAgreeFromEnd` | src/GeneticSharp.Domain.UnitTests/Crossovers/PartiallyMappedCrossoverTest.cs:124-125 | two complete mapping chains that end at the same position agree position by position when read from the end |
| `MappingChain.MappedValueInjective` | src/GeneticSharp.Domain.UnitTests/Crossovers/PartiallyMappedCrossoverTest.cs:124-125 | two different outside positions never receive the same mapped gene |
| `MappingChain.OffspringDistinct` | src/GeneticSharp.Domain.UnitTests/Crossovers/PartiallyMappedCrossoverTest.cs:124-125 | when both parents are free of repeats, so is the offspring |
| `MappingChain.OffspringIsPermutation` | src/GeneticSharp.Domain.UnitTests/Crossovers/PartiallyMappedCrossoverTest.cs:124-125 | when both parents are free of repeats and hold the same genes, the offspring is free of repeats and has exactly the base parent's multiset of genes |
| `MappingChain.WholeSegment` | src/GeneticSharp.Domain.UnitTests/Crossovers/PartiallyMappedCrossoverTest.cs:131-133 | a segment covering every position makes the offspring equal to the donor |
| `PartiallyMappedCrossover.Validate` | src/GeneticSharp.Domain.UnitTests/Crossovers/PartiallyMappedCrossoverTest.cs:23-74 | no error exactly when both parents have at least 3 genes and no repeats; too short exactly when some parent has fewer than 3 genes, with that parent's gene count; repeated genes exactly when both are long enough and one repeats a value |
| `PartiallyMappedCrossover.CutPoints` | src/GeneticSharp.Domain.UnitTests/Crossovers/PartiallyMappedCrossoverTest.cs:110-111 | the two cut points sorted, the smaller strictly below the larger, both in [0, length) |
| `PartiallyMappedCrossover.FindInMappingSection` | src/GeneticSharp.Domain.UnitTests/Crossovers/PartiallyMappedCrossoverTest.cs:134-135 | the loop finds the first position of the mapping section holding the value, as `SegmentIndex` specifies |
| `PartiallyMappedCrossover.MappedGene` | src/GeneticSharp.Domain.UnitTests/Crossovers/PartiallyMappedCrossoverTest.cs:128-140 | the mapping-chain loop ends and returns the gene `MappedValue` specifies |
| `PartiallyMappedCrossover.BuildOffspring` | src/GeneticSharp.Domain.UnitTests/Crossovers/PartiallyMappedCrossoverTest.cs:127-145 | a fresh array holding exactly `Offspring`; free of repeats when the donor is; a permutation of the base when the parents hold the same genes |
| `PartiallyMappedCrossover.Cross` | src/GeneticSharp.Domain.UnitTests/Crossovers/PartiallyMappedCrossoverTest.cs:110-122 | fails with the `Validate` error when there is one; otherwise returns exactly two fresh offspring that are different arrays, built for the segment the provider's answer to (2, 0, length) selects, both free of repeats; the parents are unchanged |
| `PartiallyMappedCrossoverTest.TwoHopChains` | src/GeneticSharp.Domain.UnitTests/Crossovers/PartiallyMappedCrossoverTest.cs:134-140 | position 7 of offspring 1 resolves 8, 6, 5 and position 2 of offspring 2 resolves 5, 6, 8, each in two hops |
| `PartiallyMappedCrossoverTest.FirstOffspringGene` | src/GeneticSharp.Domain.UnitTests/Crossovers/PartiallyMappedCrossoverTest.cs:127-140 | each gene of the first offspring outside the segment [3, 5] is the one the test expects |
| `PartiallyMappedCrossoverTest.SecondOffspringGene` | src/GeneticSharp.Domain.UnitTests/Crossovers/PartiallyMappedCrossoverTest.cs:127-145 | each gene of the second offspring outside the segment [3, 5] is the one the test expects |
| `PartiallyMappedCrossoverTest.ParentsWith8GenesOffspring` | src/GeneticSharp.Domain.UnitTests/Crossovers/PartiallyMappedCrossoverTest.cs:81-145 | with the segment [3, 5] the offspring are [4,2,3,1,6,8,7,5] and [3,7,8,4,5,6,2,1] |
| `PartiallyMappedCrossoverTest.UniqueIntsStub` | src/GeneticSharp.Domain.UnitTests/Crossovers/PartiallyMappedCrossoverTest.cs:110-111 | the mocked provider: it answers 3 and 5 |
| `PartiallyMappedCrossoverTest.ParentsWith8GenesRequest` | src/GeneticSharp.Domain.UnitTests/Crossovers/PartiallyMappedCrossoverTest.cs:81-112 | the 8-gene parents pass validation, and the stub's answer {3, 5} to (2, 0, 8) keeps the provider's contract and selects [3, 5] |
| `PartiallyMappedCrossoverTest.CrossChromosomeLengthLowerThan3` | src/GeneticSharp.Domain.UnitTests/Crossovers/PartiallyMappedCrossoverTest.cs:23-36 | crossing a 1-gene chromosome with itself fails as too short, with count 1 |
| `PartiallyMappedCrossoverTest.CrossParentWithNoOrderedGenes` | src/GeneticSharp.Domain.UnitTests/Crossovers/PartiallyMappedCrossoverTest.cs:38-74 | crossing [1..8] with [3,7,5,1,1,8,2,3] fails with the repeated-genes error |
| `PartiallyMappedCrossoverTest.CrossParentsWith8Genes` | src/GeneticSharp.Domain.UnitTests/Crossovers/PartiallyMappedCrossoverTest.cs:76-146 | `Cross` on the 8-gene parents with the stub provider returns 2 offspring of 8 genes with exactly the expected genes |

## Left out

- Randomization provider: the process-wide `RandomizationProvider.Current`, `BasicRandomization` and the reset after each test are not modelled. `Cross` takes the provider as a function `uniqueInts(count, min, max)` and requires only that its answer to (2, 0, length) meets the unique-integers contract, and only when the range holds 2 integers. A real provider is random; the model treats it as a given function.
- Mocks: the Rhino Mocks stubs, `Expect(...)` and the `CreateNew()` factory are not modelled. Each offspring is a freshly allocated array of the base's length.
- Chromosome kinds: the operator works through an interface over any chromosome class. The model uses `array<int>` only.
- Genes: `Gene.Value` equality over arbitrary objects is not modelled. Genes are `int`, so floating-point or approximate equality is out of scope.
- Timing: the 30 ms `TimeAssert` bound (line 116) is wall-clock time and is not modelled.
- Messages: the exception text and the chromosome type name in it (lines 29 and 70) are not modelled. The errors are the datatype `CrossoverError`: `TooShort(length)` carries the offending count and `RepeatedGenes` has no payload.
- Parent count: the operator takes a list that must hold exactly two parents. The model takes two parameters, so a wrong count cannot be expressed.
- Cross: the two parents must have equal length, a caller obligation the operator does not check, so it is a precondition. For that reason `Cross` checks only the first parent's length; `Validate`, on sequences of any lengths, checks both.
- Cross: its postcondition does not restate the permutation property. A caller gets it from `Cross`'s equations `children[k][..] == Offspring(...)` together with `OffspringIsPermutation`; stating it on `Cross` itself makes every concrete call of `Cross` costly to verify.
- BuildOffspring: the implementation, which is not part of this model, may fill both offspring in one pass over the positions. The model fills each offspring in its own call, first the segment and then the outside positions. Only the resulting arrays are modelled.
- MappedGene: the mapping chain is a `while` loop in the model. The implementation file, which is not part of this model, may walk the chain differently. Only the resulting gene is modelled.
- Degenerate segment: the provider's two cut points are distinct, so `Cross` never builds a one-gene segment. The specification functions and lemmas accept `lo == hi`.
