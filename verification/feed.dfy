/**
  The item loop of `process_feed`: items are examined in document order,
  each is skipped, rendered, or stops the run with an uncaught exception,
  and the loop breaks as soon as the cap on rendered products is reached.
  Fetching and parsing the feed is not modelled: the loop starts from the
  items of an already parsed document.
 */
module Feed {
  import opened Wrappers
  import opened FeedItem
  import opened Extraction
  import Creative

  /** What a run leaves behind: the products rendered, in order, and the
      fault that ended it early, if any. */
  datatype Run = Run(products: seq<Product>, fault: Option<Fault>)

  /** The cap as a count: a cap of zero or less renders nothing. */
  function CapCount(cap: int): nat {
    if cap < 0 then 0 else cap
  }

  /** The outcome of every item, in document order. */
  function Outcomes(items: seq<Item>): (r: seq<Outcome>)
    ensures |r| == |items|
  {
    if |items| == 0 then [] else [Extract(items[0])] + Outcomes(items[1..])
  }

  /** Position `k` of the outcome sequence is the outcome of item `k`. */
  lemma {:induction false} OutcomesAt(items: seq<Item>, k: nat)
    requires k < |items|
    ensures Outcomes(items)[k] == Extract(items[k])
  {
    if k > 0 {
      OutcomesAt(items[1..], k - 1);
    }
  }

  lemma {:induction false} OutcomesAppend(items: seq<Item>, more: seq<Item>)
    ensures Outcomes(items + more) == Outcomes(items) + Outcomes(more)
  {
    if |items| == 0 {
      assert items + more == more;
    } else {
      assert (items + more)[1..] == items[1..] + more;
      OutcomesAppend(items[1..], more);
    }
  }

  /** Products of the accepted items before the first item that crashes,
      in document order, ignoring the cap. */
  function AcceptedBefore(outs: seq<Outcome>): seq<Product> {
    if |outs| == 0 then []
    else match outs[0]
      case Skipped(_) => AcceptedBefore(outs[1..])
      case Accepted(p) => [p] + AcceptedBefore(outs[1..])
      case Crashed(_) => []
  }

  /** The fault of the first item that crashes, if any. */
  function FirstFault(outs: seq<Outcome>): Option<Fault> {
    if |outs| == 0 then None
    else match outs[0]
      case Crashed(f) => Some(f)
      case _ => FirstFault(outs[1..])
  }

  /** What the capped loop produces, stated without the loop: the first
      `cap` accepted products; the crash is reached only when fewer than
      `cap` products were accepted before it. */
  function Expected(outs: seq<Outcome>, cap: int): (r: Run)
    ensures |r.products| <= CapCount(cap)
    ensures |r.products| == if |AcceptedBefore(outs)| <= CapCount(cap) then |AcceptedBefore(outs)| else CapCount(cap)
    ensures r.products <= AcceptedBefore(outs)
    ensures r.fault.Some? ==> r.products == AcceptedBefore(outs)
  {
    var accepted := AcceptedBefore(outs);
    if |accepted| >= CapCount(cap) then Run(accepted[..CapCount(cap)], None)
    else Run(accepted, FirstFault(outs))
  }

  lemma {:induction false} AcceptedBeforeAppend(outs: seq<Outcome>, more: seq<Outcome>)
    requires FirstFault(outs).None?
    ensures AcceptedBefore(outs + more) == AcceptedBefore(outs) + AcceptedBefore(more)
    ensures FirstFault(outs + more) == FirstFault(more)
  {
    if |outs| == 0 {
      assert outs + more == more;
    } else {
      assert (outs + more)[1..] == outs[1..] + more;
      AcceptedBeforeAppend(outs[1..], more);
    }
  }

  lemma {:induction false} CrashEndsScan(outs: seq<Outcome>, more: seq<Outcome>)
    requires FirstFault(outs).Some?
    ensures AcceptedBefore(outs + more) == AcceptedBefore(outs)
    ensures FirstFault(outs + more) == FirstFault(outs)
  {
    assert (outs + more)[1..] == outs[1..] + more;
    if !outs[0].Crashed? {
      CrashEndsScan(outs[1..], more);
    }
  }

  /** One more outcome, read while no crash has happened yet. */
  lemma ScanStep(outs: seq<Outcome>, i: nat)
    requires i < |outs| && FirstFault(outs[..i]).None?
    ensures AcceptedBefore(outs[..i + 1])
            == AcceptedBefore(outs[..i]) + (if outs[i].Accepted? then [outs[i].product] else [])
    ensures FirstFault(outs[..i + 1]) == if outs[i].Crashed? then Some(outs[i].fault) else None
  {
    assert outs[..i + 1] == outs[..i] + [outs[i]];
    AcceptedBeforeAppend(outs[..i], [outs[i]]);
  }

  /** Stopping early: what was accepted so far starts what the whole scan
      accepts, and a crash seen so far is the first crash of the whole scan. */
  lemma ScanPrefix(outs: seq<Outcome>, i: nat)
    requires i <= |outs|
    ensures FirstFault(outs[..i]).None? ==> AcceptedBefore(outs[..i]) <= AcceptedBefore(outs)
    ensures FirstFault(outs[..i]).Some? ==>
              AcceptedBefore(outs) == AcceptedBefore(outs[..i]) && FirstFault(outs) == FirstFault(outs[..i])
  {
    assert outs == outs[..i] + outs[i..];
    if FirstFault(outs[..i]).None? {
      AcceptedBeforeAppend(outs[..i], outs[i..]);
    } else {
      CrashEndsScan(outs[..i], outs[i..]);
    }
  }

  /** The item loop of `process_feed` over the items' outcomes: it breaks
      once `cap` products are rendered, passes over skipped items, renders
      each accepted product with `create_ballzy_ad` (`loads` says which image
      downloads succeed), and stops at the first crash. */
  method RunItems(outs: seq<Outcome>, cap: int, loads: string -> bool)
    returns (ads: seq<Creative.Ad>, fault: Option<Fault>)
    ensures |ads| <= CapCount(cap)
    ensures |ads| == |Expected(outs, cap).products|
    ensures forall k | 0 <= k < |ads| :: ads[k] == Creative.Render(Expected(outs, cap).products[k], loads)
    ensures fault == Expected(outs, cap).fault
  {
    ads := [];
    fault := None;
    var count := 0;
    var i := 0;
    while i < |outs|
      invariant 0 <= i <= |outs|
      invariant count == |ads| <= CapCount(cap)
      invariant FirstFault(outs[..i]).None?
      invariant |AcceptedBefore(outs[..i])| == count
      invariant forall k | 0 <= k < count :: ads[k] == Creative.Render(AcceptedBefore(outs[..i])[k], loads)
    {
      if count >= cap {
        break;
      }
      ScanStep(outs, i);
      match outs[i] {
        case Skipped(_) =>
        case Crashed(f) =>
          ScanPrefix(outs, i + 1);
          fault := Some(f);
          return;
        case Accepted(p) =>
          ads := ads + [Creative.Render(p, loads)];
          count := count + 1;
      }
      i := i + 1;
    }
    ScanPrefix(outs, i);
    if i == |outs| {
      assert outs[..i] == outs;
    }
    assert Expected(outs, cap).products == AcceptedBefore(outs[..i]);
  }

  /** `process_feed` from the parsed items on. Every item's outcome is
      computed up front: `Extract` is pure, so this is the same as computing
      it when the loop reaches the item. */
  method ProcessFeed(items: seq<Item>, cap: int, loads: string -> bool)
    returns (ads: seq<Creative.Ad>, fault: Option<Fault>)
    ensures |ads| <= CapCount(cap)
    ensures |ads| == |Expected(Outcomes(items), cap).products|
    ensures forall k | 0 <= k < |ads| ::
              ads[k] == Creative.Render(Expected(Outcomes(items), cap).products[k], loads)
    ensures fault == Expected(Outcomes(items), cap).fault
  {
    ads, fault := RunItems(Outcomes(items), cap, loads);
  }

  /** Removing a skipped outcome from any position changes neither the
      products scanned nor the first fault. */
  lemma {:induction false} DropSkipOuts(outs: seq<Outcome>, s: Outcome, more: seq<Outcome>)
    requires s.Skipped?
    ensures AcceptedBefore(outs + [s] + more) == AcceptedBefore(outs + more)
    ensures FirstFault(outs + [s] + more) == FirstFault(outs + more)
  {
    if |outs| == 0 {
      assert outs + [s] + more == [s] + more;
      assert ([s] + more)[1..] == more;
      assert outs + more == more;
    } else {
      assert (outs + [s] + more)[1..] == outs[1..] + [s] + more;
      assert (outs + more)[1..] == outs[1..] + more;
      DropSkipOuts(outs[1..], s, more);
    }
  }

  /** The run over outcomes, with a skipped outcome removed from any position. */
  lemma SkipOutcomeIgnored(outs: seq<Outcome>, s: Outcome, more: seq<Outcome>, cap: int)
    requires s.Skipped?
    ensures Expected(outs + [s] + more, cap) == Expected(outs + more, cap)
  {
    DropSkipOuts(outs, s, more);
  }

  /** The outcomes of a feed with one item inserted: that item's outcome
      inserted at the same position. */
  lemma OutcomesInsert(front: seq<Item>, item: Item, back: seq<Item>)
    ensures Outcomes(front + [item] + back) == Outcomes(front) + [Extract(item)] + Outcomes(back)
  {
    OutcomesAppend(front + [item], back);
    OutcomesAppend(front, [item]);
    OutcomesSingle(item);
  }

  /** The outcome list of one item is its outcome. */
  lemma OutcomesSingle(item: Item)
    ensures Outcomes([item]) == [Extract(item)]
  {
    assert [item][1..] == [];
  }

  /** A skipped item does not use up the cap: wherever it sits in the feed,
      the run is the same as if the item were not there. */
  lemma SkipDoesNotConsumeCap(items: seq<Item>, p: nat, item: Item, cap: int)
    requires p <= |items|
    requires Extract(item).Skipped?
    ensures Expected(Outcomes(items[..p] + [item] + items[p..]), cap) == Expected(Outcomes(items), cap)
  {
    var front, back := items[..p], items[p..];
    assert front + back == items;
    OutcomesInsert(front, item, back);
    OutcomesAppend(front, back);
    SkipOutcomeIgnored(Outcomes(front), Extract(item), Outcomes(back), cap);
  }

  /** Nothing after the first crashing item matters. */
  lemma NothingAfterCrash(outs: seq<Outcome>, more: seq<Outcome>, cap: int)
    requires FirstFault(outs).Some?
    ensures Expected(outs + more, cap) == Expected(outs, cap)
  {
    CrashEndsScan(outs, more);
  }

  /** The `break` at the cap: once `cap` products are accepted with no
      crash, later items are never read, even one that would crash. */
  lemma NothingAfterCap(outs: seq<Outcome>, more: seq<Outcome>, cap: int)
    requires FirstFault(outs).None? && |AcceptedBefore(outs)| >= CapCount(cap)
    ensures Expected(outs + more, cap) == Expected(outs, cap)
  {
    AcceptedBeforeAppend(outs, more);
    var accepted := AcceptedBefore(outs);
    assert (accepted + AcceptedBefore(more))[..CapCount(cap)] == accepted[..CapCount(cap)];
  }

  /** Raising the cap only adds products at the end. */
  lemma CapMonotone(outs: seq<Outcome>, cap: int, cap': int)
    requires cap <= cap'
    ensures Expected(outs, cap).products <= Expected(outs, cap').products
  {
  }

  /** Positions of the accepted outcomes before the first crash. */
  function AcceptedIndices(outs: seq<Outcome>): seq<nat> {
    if |outs| == 0 then []
    else match outs[0]
      case Skipped(_) => Shift(AcceptedIndices(outs[1..]))
      case Accepted(_) => [0] + Shift(AcceptedIndices(outs[1..]))
      case Crashed(_) => []
  }

  /** Each product of the scan is the product of the accepted item at the
      matching position. */
  lemma {:induction false} AcceptedIndicesMatch(outs: seq<Outcome>)
    ensures |AcceptedIndices(outs)| == |AcceptedBefore(outs)|
    ensures forall k | 0 <= k < |AcceptedIndices(outs)| ::
              AcceptedIndices(outs)[k] < |outs|
              && outs[AcceptedIndices(outs)[k]] == Accepted(AcceptedBefore(outs)[k])
  {
    if |outs| > 0 {
      var tail := outs[1..];
      AcceptedIndicesMatch(tail);
      var rest := AcceptedIndices(tail);
      var sh := Shift(rest);
      assert forall k | 0 <= k < |sh| :: sh[k] < |outs| && outs[sh[k]] == tail[rest[k]];
      match outs[0]
      case Skipped(_) =>
      case Accepted(p) =>
        var idx := [0] + sh;
        assert AcceptedIndices(outs) == idx;
        assert AcceptedBefore(outs) == [p] + AcceptedBefore(tail);
        assert forall k | 1 <= k < |idx| :: idx[k] == sh[k - 1];
      case Crashed(_) =>
    }
  }

  /** Rendered products come from accepted items in strictly increasing
      document order. */
  lemma {:induction false} AcceptedInDocumentOrder(outs: seq<Outcome>)
    ensures forall k, l | 0 <= k < l < |AcceptedIndices(outs)| ::
              AcceptedIndices(outs)[k] < AcceptedIndices(outs)[l]
  {
    if |outs| > 0 {
      var tail := outs[1..];
      AcceptedInDocumentOrder(tail);
      var sh := Shift(AcceptedIndices(tail));
      if outs[0].Accepted? {
        var idx := [0] + sh;
        assert AcceptedIndices(outs) == idx;
        assert forall k | 1 <= k < |idx| :: idx[k] == sh[k - 1] && idx[k] > 0;
      }
    }
  }

  /** Cap aside, an accepted item before the first crash is never left out. */
  lemma {:induction false} AcceptedNeverDropped(outs: seq<Outcome>, j: nat)
    requires j < |outs| && outs[j].Accepted?
    requires FirstFault(outs[..j]).None?
    ensures j in AcceptedIndices(outs)
  {
    if j > 0 {
      var tail := outs[1..];
      assert outs[..j][0] == outs[0];
      assert outs[..j][1..] == tail[..j - 1];
      AcceptedNeverDropped(tail, j - 1);
      var rest := AcceptedIndices(tail);
      var m :| 0 <= m < |rest| && rest[m] == j - 1;
      assert Shift(rest)[m] == j;
    }
  }

  /** An accepted item before the first crash is rendered whenever fewer
      than `cap` products were accepted before it: its product takes the
      next position of the run. */
  lemma AcceptedRenderedUpToCap(outs: seq<Outcome>, j: nat, cap: int)
    requires j < |outs| && outs[j].Accepted?
    requires FirstFault(outs[..j]).None?
    requires |AcceptedBefore(outs[..j])| < CapCount(cap)
    ensures |AcceptedBefore(outs[..j])| < |Expected(outs, cap).products|
    ensures Expected(outs, cap).products[|AcceptedBefore(outs[..j])|] == outs[j].product
  {
    var before := AcceptedBefore(outs[..j]);
    ScanStep(outs, j);
    ScanPrefix(outs, j + 1);
    assert before + [outs[j].product] <= AcceptedBefore(outs);
    assert AcceptedBefore(outs)[|before|] == outs[j].product;
  }
}
