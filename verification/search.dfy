/** Searching a row of flags for the first one set: the shape shared by
    the rule matcher and the lazy groups of the title patterns. */
module Search {
  import opened Wrappers

  /** The first index in `[lo, hi]` whose flag is set: how a lazy group
      settles on its end and how a rule list picks its rule. */
  function FirstTrue(oks: seq<bool>, lo: nat, hi: nat): (r: Option<nat>)
    requires hi < |oks|
    ensures r.Some? ==> lo <= r.value <= hi && oks[r.value]
    decreases hi + 1 - lo
  {
    if lo > hi then None
    else if oks[lo] then Some(lo)
    else FirstTrue(oks, lo + 1, hi)
  }

  /** No flag before the index `FirstTrue` picks is set. */
  lemma {:induction false} FirstTrueFirst(oks: seq<bool>, lo: nat, hi: nat, y: nat)
    requires hi < |oks| && FirstTrue(oks, lo, hi).Some? && lo <= y < FirstTrue(oks, lo, hi).value
    ensures !oks[y]
    decreases hi + 1 - lo
  {
    if y > lo {
      FirstTrueFirst(oks, lo + 1, hi, y);
    }
  }

  /** `FirstTrue` finds nothing only when no flag in range is set. */
  lemma {:induction false} FirstTrueNone(oks: seq<bool>, lo: nat, hi: nat, y: nat)
    requires hi < |oks| && FirstTrue(oks, lo, hi).None? && lo <= y <= hi
    ensures !oks[y]
    decreases hi + 1 - lo
  {
    if y > lo {
      FirstTrueNone(oks, lo + 1, hi, y);
    }
  }

  /** A set flag in range means `FirstTrue` finds one, at or before it. */
  lemma {:induction false} FirstTrueFound(oks: seq<bool>, lo: nat, hi: nat, k: nat)
    requires hi < |oks| && lo <= k <= hi && oks[k]
    ensures FirstTrue(oks, lo, hi).Some? && FirstTrue(oks, lo, hi).value <= k
    decreases hi + 1 - lo
  {
    if !oks[lo] {
      FirstTrueFound(oks, lo + 1, hi, k);
    }
  }
}
