/** The randomization provider, as far as the crossover relies on it. The
    provider itself is a foreign collaborator; what the crossover consumes is its
    contract for a request of count unique integers from [min, max). */
module Randomizations {
  import opened Chromosomes

  /** r is a possible answer to a request for count unique integers from
      [min, max): exactly count of them, pairwise distinct, all in range. */
  predicate UniqueInts(r: seq<int>, count: nat, min: int, max: int) {
    |r| == count && Distinct(r) && forall k :: 0 <= k < |r| ==> min <= r[k] < max
  }

  /** The provider answers this one request as its contract says. The contract
      binds only when the range holds count integers; beyond that the provider
      is undefined, so nothing is asked of it there. */
  predicate AnswersUniqueInts(uniqueInts: (nat, int, int) -> seq<int>, count: nat, min: int, max: int) {
    count <= max - min ==> UniqueInts(uniqueInts(count, min, max), count, min, max)
  }

  /** A request for more unique integers than its range holds has no answer:
      this is why the contract binds only when count <= max - min. */
  lemma {:induction false} UniqueIntsNeedRoom(r: seq<int>, count: nat, min: int, max: int)
    requires UniqueInts(r, count, min, max)
    ensures count > 0 ==> count <= max - min
    decreases max - min
  {
    if count > 0 {
      assert min <= r[0] < max;
      if exists k :: 0 <= k < |r| && r[k] == max - 1 {
        var k :| 0 <= k < |r| && r[k] == max - 1;
        var rest := r[..k] + r[k + 1..];
        DistinctRemove(r, k);
        forall m | 0 <= m < |rest| ensures min <= rest[m] < max - 1 {
          var m' := if m < k then m else m + 1;
          assert rest[m] == r[m'] && m' != k;
        }
        UniqueIntsNeedRoom(rest, count - 1, min, max - 1);
      } else {
        UniqueIntsNeedRoom(r, count, min, max - 1);
      }
    }
  }

  /** The integers min, min + 1, ..., min + count - 1: an answer to every
      request whose range holds count integers, so the contract can be met. */
  function Ascending(count: nat, min: int): (r: seq<int>)
    ensures forall max :: min + count <= max ==> UniqueInts(r, count, min, max)
    decreases count
  {
    if count == 0 then []
    else
      var r := Ascending(count - 1, min) + [min + count - 1];
      assert UniqueInts(Ascending(count - 1, min), count - 1, min, min + count - 1);
      r
  }
}
