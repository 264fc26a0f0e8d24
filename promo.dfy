/**
 * The most common promo-code sequence of Assignment3.py (lines 151-152): the
 * pairs of promo codes of adjacent rows are counted, and the pair with the
 * largest count is reported together with that count.
 */
module PromoSequences {
  import opened Wrappers
  import opened Seqs

  /** A PromoCode cell; a missing code is None. */
  type PromoCode = Option<string>

  /** The promo code of one row and that of the next row. */
  type PromoPair = (PromoCode, PromoCode)

  /** `zip(codes, islice(codes, 1, None))`: every code paired with the code of the next row. */
  function PromoPairs(codes: seq<PromoCode>): (ps: seq<PromoPair>)
    ensures |ps| == if |codes| < 2 then 0 else |codes| - 1
    ensures forall i :: 0 <= i < |ps| ==> ps[i] == (codes[i], codes[i + 1])
  {
    if |codes| < 2 then [] else [(codes[0], codes[1])] + PromoPairs(codes[1..])
  }

  /** The number of positions i at which row i's code and row i+1's code form the pair `p`. */
  function AdjacentCount(codes: seq<PromoCode>, p: PromoPair): nat {
    if |codes| < 2 then 0
    else (if (codes[0], codes[1]) == p then 1 else 0) + AdjacentCount(codes[1..], p)
  }

  /** Each pair occurs among the zipped pairs as often as it occurs adjacently in the codes. */
  lemma {:induction false} PairMultiplicity(codes: seq<PromoCode>, p: PromoPair)
    ensures multiset(PromoPairs(codes))[p] == AdjacentCount(codes, p)
  {
    if |codes| >= 2 {
      PairMultiplicity(codes[1..], p);
      assert PromoPairs(codes) == [(codes[0], codes[1])] + PromoPairs(codes[1..]);
    }
  }

  /** A pair that occurs among the zipped pairs is the codes of two adjacent rows. */
  lemma CountedPairIsAdjacent(codes: seq<PromoCode>, p: PromoPair)
    requires p in PromoPairs(codes)
    ensures exists i :: 0 <= i < |codes| - 1 && p == (codes[i], codes[i + 1])
  {
    var ps := PromoPairs(codes);
    var i :| 0 <= i < |ps| && ps[i] == p;
  }

  /**
   * `Counter(...)` of the pairs: each pair is counted exactly as often as it
   * occurs in adjacent rows, so only adjacent pairs have a count. The counts
   * total one less than the number of rows (none for fewer than two rows).
   */
  function PairCounts(codes: seq<PromoCode>): (counts: multiset<PromoPair>)
    ensures forall p :: counts[p] == AdjacentCount(codes, p)
    ensures forall p :: counts[p] > 0 ==> exists i :: 0 <= i < |codes| - 1 && p == (codes[i], codes[i + 1])
    ensures forall i :: 0 <= i < |codes| - 1 ==> counts[(codes[i], codes[i + 1])] > 0
    ensures |counts| == if |codes| < 2 then 0 else |codes| - 1
  {
    var ps := PromoPairs(codes);
    forall i | 0 <= i < |codes| - 1 ensures multiset(ps)[(codes[i], codes[i + 1])] > 0 {
      assert ps[i] in multiset(ps);
    }
    forall p ensures multiset(ps)[p] == AdjacentCount(codes, p) {
      PairMultiplicity(codes, p);
    }
    forall p | multiset(ps)[p] > 0 ensures exists i :: 0 <= i < |codes| - 1 && p == (codes[i], codes[i + 1]) {
      CountedPairIsAdjacent(codes, p);
    }
    multiset(ps)
  }

  /**
   * Python's `max(keys, key=count)`, to which `most_common(1)` reduces: the
   * index of the first key whose count is not exceeded by any other key.
   */
  function FirstMostCommon(keys: seq<PromoPair>, counts: multiset<PromoPair>): (i: nat)
    requires |keys| > 0
    ensures i < |keys|
    ensures forall j :: 0 <= j < |keys| ==> counts[keys[j]] <= counts[keys[i]]
    ensures forall j :: 0 <= j < i ==> counts[keys[j]] < counts[keys[i]]
  {
    if |keys| == 1 then 0
    else
      var i := FirstMostCommon(keys[..|keys| - 1], counts);
      if counts[keys[|keys| - 1]] > counts[keys[i]] then |keys| - 1 else i
  }

  /**
   * `promo_sequences.most_common(1)[0] if promo_sequences else None`. The keys
   * of a Counter are kept in the order in which they were first counted, so
   * they are the distinct pairs in order of first occurrence.
   */
  function MostCommonPromo(codes: seq<PromoCode>): (r: Option<(PromoPair, nat)>)
    ensures r.None? <==> |codes| < 2
    ensures r.Some? ==> r.value.0 in PromoPairs(codes) && r.value.1 == PairCounts(codes)[r.value.0] > 0
  {
    var ps := PromoPairs(codes);
    if ps == [] then None
    else
      var keys := Dedup(ps);
      var i := FirstMostCommon(keys, multiset(ps));
      Some((keys[i], multiset(ps)[keys[i]]))
  }

  /** The pair chosen among the distinct pairs occurs, and no pair occurs more often. */
  lemma ChosenPairIsMostCommon(ps: seq<PromoPair>)
    requires ps != []
    ensures var keys := Dedup(ps);
      var p := keys[FirstMostCommon(keys, multiset(ps))];
      p in ps && forall q :: multiset(ps)[q] <= multiset(ps)[p]
  {
    var keys := Dedup(ps);
    var p := keys[FirstMostCommon(keys, multiset(ps))];
    forall q | q in ps ensures multiset(ps)[q] <= multiset(ps)[p] {
      var j :| 0 <= j < |ps| && ps[j] == q;
      var k :| 0 <= k < |keys| && keys[k] == q;
    }
  }

  /** No key before the one FirstMostCommon picks has as large a count. */
  lemma FirstMostCommonBeforeTie(keys: seq<PromoPair>, counts: multiset<PromoPair>, k: nat)
    requires k < |keys|
    requires counts[keys[k]] == counts[keys[FirstMostCommon(keys, counts)]]
    ensures FirstMostCommon(keys, counts) <= k
  {
  }

  /** Of the pairs that occur as often as the chosen pair, the chosen pair occurs first. */
  lemma ChosenPairOccursFirst(ps: seq<PromoPair>)
    requires ps != []
    ensures var keys := Dedup(ps);
      var p := keys[FirstMostCommon(keys, multiset(ps))];
      forall q :: q in ps && multiset(ps)[q] == multiset(ps)[p] ==> FirstIndex(ps, p) <= FirstIndex(ps, q)
  {
    var keys := Dedup(ps);
    var i := FirstMostCommon(keys, multiset(ps));
    var p := keys[i];
    forall q | q in ps && multiset(ps)[q] == multiset(ps)[p] ensures FirstIndex(ps, p) <= FirstIndex(ps, q) {
      var j :| 0 <= j < |ps| && ps[j] == q;
      var k :| 0 <= k < |keys| && keys[k] == q;
      FirstMostCommonBeforeTie(keys, multiset(ps), k);
      DedupFirstOccurrenceNoEarlier(ps, i, k);
    }
  }

  /**
   * There is no most common pair exactly when there are fewer than two rows;
   * otherwise it is a pair that occurs, reported with its count, no pair occurs
   * more often, and of the pairs that occur as often it is the one that occurs first.
   */
  lemma MostCommonPromoSpec(codes: seq<PromoCode>)
    ensures MostCommonPromo(codes).None? <==> |codes| < 2
    ensures MostCommonPromo(codes).Some? ==>
      var p, c := MostCommonPromo(codes).value.0, MostCommonPromo(codes).value.1;
      && p in PromoPairs(codes)
      && c == PairCounts(codes)[p]
      && (forall q :: PairCounts(codes)[q] <= c)
      && (forall q :: q in PromoPairs(codes) && PairCounts(codes)[q] == c ==>
            FirstIndex(PromoPairs(codes), p) <= FirstIndex(PromoPairs(codes), q))
  {
    var ps := PromoPairs(codes);
    if ps != [] {
      ChosenPairIsMostCommon(ps);
      ChosenPairOccursFirst(ps);
    }
  }
}
