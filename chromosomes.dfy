/** Gene sequences as the crossover sees them: a chromosome's genes are integer
    values, and an ordered (permutation) chromosome is one in which no value repeats. */
module Chromosomes {

  /** No gene value occurs twice. */
  predicate Distinct(genes: seq<int>) {
    forall i, j | 0 <= i < j < |genes| :: genes[i] != genes[j]
  }

  /** Scans the genes once, remembering the values seen so far, and reports
      whether some value occurs a second time. */
  method HasRepeatedGene(genes: array<int>) returns (repeated: bool)
    ensures repeated <==> !Distinct(genes[..])
  {
    var seen: set<int> := {};
    for i := 0 to genes.Length
      invariant forall x :: x in seen <==> x in genes[..i]
      invariant Distinct(genes[..i])
    {
      if genes[i] in seen {
        var k :| 0 <= k < i && genes[..i][k] == genes[i];
        assert genes[..][k] == genes[..][i];
        return true;
      }
      assert genes[..i + 1] == genes[..i] + [genes[i]];
      seen := seen + {genes[i]};
    }
    assert genes[..] == genes[..genes.Length];
    return false;
  }

  /** Removing one gene keeps a chromosome free of repeats. */
  lemma DistinctRemove(genes: seq<int>, k: nat)
    requires Distinct(genes) && k < |genes|
    ensures Distinct(genes[..k] + genes[k + 1..])
  {
    var rest := genes[..k] + genes[k + 1..];
    forall i, j | 0 <= i < j < |rest| ensures rest[i] != rest[j] {
      var i' := if i < k then i else i + 1;
      var j' := if j < k then j else j + 1;
      assert rest[i] == genes[i'] && rest[j] == genes[j'];
    }
  }

  /** A value of a chromosome other than the gene at k survives removing that gene. */
  lemma RemoveKeeps(genes: seq<int>, k: nat, x: int)
    requires k < |genes| && x in genes && x != genes[k]
    ensures x in genes[..k] + genes[k + 1..]
  {
    var rest := genes[..k] + genes[k + 1..];
    var idx :| 0 <= idx < |genes| && genes[idx] == x;
    if idx < k {
      assert rest[idx] == x;
    } else {
      assert rest[idx - 1] == x;
    }
  }

  /** Removing the gene at k takes exactly one copy of its value out of the genes. */
  lemma RemoveOne(genes: seq<int>, k: nat)
    requires k < |genes|
    ensures multiset(genes) == multiset(genes[..k] + genes[k + 1..]) + multiset{genes[k]}
  {
    assert genes == genes[..k] + [genes[k]] + genes[k + 1..];
  }

  /** Matching the first gene of s with the gene at k of t reduces equal gene
      multisets to equal multisets of what remains. */
  lemma SwapOutFirst(s: seq<int>, t: seq<int>, k: nat)
    requires s != [] && k < |t| && t[k] == s[0]
    requires multiset(s[1..]) == multiset(t[..k] + t[k + 1..])
    ensures multiset(s) == multiset(t)
  {
    RemoveOne(s, 0);
    RemoveOne(t, k);
    assert s[..0] + s[1..] == s[1..];
  }

  /** Once the gene at k of t is matched with the first gene of s, the rest of s
      still draws its values from the rest of t. */
  lemma TailDrawsFromRemainder(s: seq<int>, t: seq<int>, k: nat)
    requires Distinct(s) && s != [] && k < |t| && t[k] == s[0]
    requires forall m :: 0 <= m < |s| ==> s[m] in t
    ensures forall m :: 0 <= m < |s| - 1 ==> s[1..][m] in t[..k] + t[k + 1..]
  {
    forall m | 0 <= m < |s| - 1 ensures s[1..][m] in t[..k] + t[k + 1..] {
      assert s[1..][m] == s[m + 1] && s[m + 1] in t;
      assert s[m + 1] != s[0];
      RemoveKeeps(t, k, s[m + 1]);
    }
  }

  /** Two repeat-free chromosomes of one length, the first drawing all its values
      from the second, hold the same genes: each is a permutation of the other. */
  lemma {:induction false} SameGenes(s: seq<int>, t: seq<int>)
    requires Distinct(s) && Distinct(t) && |s| == |t|
    requires forall m :: 0 <= m < |s| ==> s[m] in t
    ensures multiset(s) == multiset(t)
    decreases |s|
  {
    if s != [] {
      assert s[0] in t;
      var k :| 0 <= k < |t| && t[k] == s[0];
      var s', t' := s[1..], t[..k] + t[k + 1..];
      DistinctRemove(t, k);
      DistinctRemove(s, 0);
      assert s[..0] + s[1..] == s';
      TailDrawsFromRemainder(s, t, k);
      SameGenes(s', t');
      SwapOutFirst(s, t, k);
    }
  }
}
