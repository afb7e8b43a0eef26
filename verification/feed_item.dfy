/**
  A feed `<item>` seen through ElementTree's `find` and `findall`: the
  ordered list of its child elements, each a tag (namespace prefix written
  out, e.g. "g:id") and the element's text, which ElementTree reports as
  `None` when the element has no text.
 */
module FeedItem {
  import opened Wrappers

  datatype Element = Element(tag: string, text: Option<string>)

  /** The direct children of one `<item>`, in document order. */
  type Item = seq<Element>

  /** `item.find(tag)`: the first child with that tag, or `None`. */
  function Find(item: Item, tag: string): (r: Option<Element>)
    ensures r.None? <==> forall i | 0 <= i < |item| :: item[i].tag != tag
    ensures r.Some? ==> exists i | 0 <= i < |item| ::
              item[i] == r.value && r.value.tag == tag
              && forall j | 0 <= j < i :: item[j].tag != tag
  {
    if |item| == 0 then None
    else if item[0].tag == tag then Some(item[0])
    else
      var r := Find(item[1..], tag);
      assert forall j | 1 <= j < |item| :: item[j] == item[1..][j - 1];
      r
  }

  /** `item.findall(tag)`: every child with that tag, in document order. */
  function FindAll(item: Item, tag: string): (r: seq<Element>)
    ensures |r| <= |item|
    ensures forall k | 0 <= k < |r| :: r[k].tag == tag
  {
    if |item| == 0 then []
    else
      if item[0].tag == tag then [item[0]] + FindAll(item[1..], tag)
      else FindAll(item[1..], tag)
  }

  /** `findall` keeps every child with the tag, as often as it occurs, and
      no other child. */
  lemma {:induction false} FindAllContents(item: Item, tag: string)
    ensures forall e :: multiset(FindAll(item, tag))[e] == if e.tag == tag then multiset(item)[e] else 0
  {
    if |item| > 0 {
      FindAllContents(item[1..], tag);
      assert item == [item[0]] + item[1..];
    }
  }

  /** Every position moved one further along. */
  function Shift(idx: seq<nat>): (r: seq<nat>)
    ensures |r| == |idx|
    ensures forall k | 0 <= k < |idx| :: r[k] == idx[k] + 1
  {
    seq(|idx|, k requires 0 <= k < |idx| => idx[k] + 1)
  }

  /** The positions of the children with the tag, in document order. */
  function Positions(item: Item, tag: string): seq<nat> {
    if |item| == 0 then []
    else if item[0].tag == tag then [0] + Shift(Positions(item[1..], tag))
    else Shift(Positions(item[1..], tag))
  }

  /** `findall` returns the children at `Positions`, one for one. */
  lemma {:induction false} FindAllAtPositions(item: Item, tag: string)
    ensures |Positions(item, tag)| == |FindAll(item, tag)|
    ensures forall k | 0 <= k < |Positions(item, tag)| ::
              Positions(item, tag)[k] < |item| && item[Positions(item, tag)[k]] == FindAll(item, tag)[k]
  {
    if |item| > 0 {
      var tail := item[1..];
      FindAllAtPositions(tail, tag);
      var rest := Positions(tail, tag);
      var found := FindAll(tail, tag);
      var sh := Shift(rest);
      var idx := Positions(item, tag);
      var all := FindAll(item, tag);
      if item[0].tag == tag {
        assert idx == [0] + sh;
        assert all == [item[0]] + found;
        forall k | 1 <= k < |idx|
          ensures idx[k] < |item| && item[idx[k]] == all[k]
        {
          assert idx[k] == rest[k - 1] + 1;
          assert item[idx[k]] == tail[rest[k - 1]];
        }
      } else {
        assert idx == sh;
        assert all == found;
        forall k | 0 <= k < |idx|
          ensures idx[k] < |item| && item[idx[k]] == all[k]
        {
          assert item[idx[k]] == tail[rest[k]];
        }
      }
    }
  }

  /** `Positions` is strictly increasing: `findall` keeps document order. */
  lemma {:induction false} PositionsIncreasing(item: Item, tag: string)
    ensures forall k, l | 0 <= k < l < |Positions(item, tag)| ::
              Positions(item, tag)[k] < Positions(item, tag)[l]
  {
    if |item| > 0 {
      PositionsIncreasing(item[1..], tag);
      var sh := Shift(Positions(item[1..], tag));
      if item[0].tag == tag {
        var idx := [0] + sh;
        assert Positions(item, tag) == idx;
        assert forall k | 1 <= k < |idx| :: idx[k] == sh[k - 1] && idx[k] > 0;
      }
    }
  }

  /** `Positions` holds exactly the children with the tag. */
  lemma {:induction false} PositionsExact(item: Item, tag: string)
    ensures forall i | 0 <= i < |item| :: i in Positions(item, tag) <==> item[i].tag == tag
  {
    if |item| > 0 {
      var tail := item[1..];
      PositionsExact(tail, tag);
      var rest := Positions(tail, tag);
      var sh := Shift(rest);
      forall i | 1 <= i < |item|
        ensures i in sh <==> item[i].tag == tag
      {
        assert item[i] == tail[i - 1];
        if i - 1 in rest {
          var m :| 0 <= m < |rest| && rest[m] == i - 1;
          assert sh[m] == i;
        }
      }
      assert 0 !in sh;
    }
  }

  /** `find` returns the head of `findall`. */
  lemma {:induction false} FindIsFirstOfFindAll(item: Item, tag: string)
    ensures Find(item, tag) == if FindAll(item, tag) == [] then None else Some(FindAll(item, tag)[0])
  {
    if |item| > 0 && item[0].tag != tag {
      FindIsFirstOfFindAll(item[1..], tag);
    }
  }

  /** Appending children never changes an earlier match, and a new child is
      found only when the item had no child with that tag. */
  lemma {:induction false} FindAppend(item: Item, more: Item, tag: string)
    ensures Find(item + more, tag) == if Find(item, tag).Some? then Find(item, tag) else Find(more, tag)
  {
    if |item| == 0 {
      assert item + more == more;
    } else {
      assert (item + more)[1..] == item[1..] + more;
      FindAppend(item[1..], more, tag);
    }
  }

  /** `findall` over a concatenation is the concatenation of the two `findall`s. */
  lemma {:induction false} FindAllAppend(item: Item, more: Item, tag: string)
    ensures FindAll(item + more, tag) == FindAll(item, tag) + FindAll(more, tag)
  {
    if |item| == 0 {
      assert item + more == more;
    } else {
      assert (item + more)[1..] == item[1..] + more;
      FindAllAppend(item[1..], more, tag);
    }
  }
}
