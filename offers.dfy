/** How the per-line offers of a block combine into one field: the first non-empty one wins,
    or the last present one does. */
module Offers {
  import opened Text

  /** The first non-empty offer, or "" when every offer is empty. */
  function FirstNonEmpty(offers: seq<string>): string {
    if |offers| == 0 then ""
    else
      var prev := FirstNonEmpty(offers[..|offers| - 1]);
      if prev == "" then offers[|offers| - 1] else prev
  }

  predicate AllEmptyBefore(offers: seq<string>, k: nat)
    requires k <= |offers|
  {
    forall m :: 0 <= m < k ==> offers[m] == ""
  }

  lemma {:induction false} FirstNonEmptyIs(offers: seq<string>)
    ensures FirstNonEmpty(offers) == "" <==> AllEmptyBefore(offers, |offers|)
    ensures FirstNonEmpty(offers) != "" ==> exists k ::
      0 <= k < |offers| && offers[k] == FirstNonEmpty(offers) && AllEmptyBefore(offers, k)
  {
    if |offers| > 0 {
      var n := |offers| - 1;
      var init := offers[..n];
      FirstNonEmptyIs(init);
      assert forall m :: 0 <= m < n ==> offers[m] == init[m];
      if FirstNonEmpty(init) != "" {
        var k :| 0 <= k < n && init[k] == FirstNonEmpty(init) && AllEmptyBefore(init, k);
        assert offers[k] == FirstNonEmpty(offers) && AllEmptyBefore(offers, k);
      } else {
        assert AllEmptyBefore(offers, n);
        if offers[n] != "" {
          assert offers[n] == FirstNonEmpty(offers);
        }
      }
    }
  }

  /** The last offer that is present, or `None` when none is. */
  function LastPresent(offers: seq<Option<string>>): Option<string> {
    if |offers| == 0 then None
    else if offers[|offers| - 1].Some? then offers[|offers| - 1]
    else LastPresent(offers[..|offers| - 1])
  }

  predicate NonePresentAfter(offers: seq<Option<string>>, k: int)
  {
    forall m :: 0 <= m < |offers| && k < m ==> offers[m].None?
  }

  lemma {:induction false} LastPresentIs(offers: seq<Option<string>>)
    ensures LastPresent(offers).None? <==> NonePresentAfter(offers, -1)
    ensures LastPresent(offers).Some? ==> exists k ::
      0 <= k < |offers| && offers[k] == LastPresent(offers) && NonePresentAfter(offers, k)
  {
    if |offers| > 0 {
      var n := |offers| - 1;
      if offers[n].Some? {
        assert NonePresentAfter(offers, n);
      } else {
        var init := offers[..n];
        LastPresentIs(init);
        assert forall m :: 0 <= m < n ==> offers[m] == init[m];
        if LastPresent(init).Some? {
          var k :| 0 <= k < n && init[k] == LastPresent(init) && NonePresentAfter(init, k);
          assert offers[k] == LastPresent(offers) && NonePresentAfter(offers, k);
        } else {
          assert NonePresentAfter(offers, -1);
        }
      }
    }
  }
}
