// Lists compared by how often each element occurs.
module Counting {
  function Count<T(==)>(items: seq<T>, item: T): nat {
    if items == [] then 0 else Count(items[..|items| - 1], item) + if items[|items| - 1] == item then 1 else 0
  }

  lemma {:induction false} CountSnoc<T>(items: seq<T>, last: T, item: T)
    ensures Count(items + [last], item) == Count(items, item) + if last == item then 1 else 0
  {
    assert (items + [last])[..|items|] == items;
  }

  lemma {:induction false} CountAppend<T>(items: seq<T>, more: seq<T>, item: T)
    ensures Count(items + more, item) == Count(items, item) + Count(more, item)
  {
    if more == [] {
      assert items + more == items;
    } else {
      CountAppend(items, more[..|more| - 1], item);
      assert (items + more)[..|items + more| - 1] == items + more[..|more| - 1];
    }
  }

  lemma {:induction false} CountIsMultiplicity<T>(items: seq<T>, item: T)
    ensures multiset(items)[item] == Count(items, item)
  {
    if items != [] {
      CountIsMultiplicity(items[..|items| - 1], item);
      assert items == items[..|items| - 1] + [items[|items| - 1]];
    }
  }
}
