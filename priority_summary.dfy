/** The priority rollup of open items: four counters filled in one pass. Whether a
    due date lies before "now" is date parsing and a clock, so it is the caller's
    predicate `beforeNow`. */
module PrioritySummary {
  import opened Domain

  datatype PrioritySummary = PrioritySummary(critical: nat, high: nat, overdue: nat, ordered: nat)

  /** Items with status `done` are skipped; every other status, terminal or not, counts. */
  predicate Counted(item: Item) {
    item.status != Done
  }

  predicate CriticalOpen(item: Item) {
    Counted(item) && item.priority == Critical
  }

  predicate HighOpen(item: Item) {
    Counted(item) && item.priority == High
  }

  predicate OrderedMaterial(item: Item) {
    Counted(item) && item.itemType == Material && item.status == Ordered
  }

  /** A missing due date and an empty one (falsy in the source) are never overdue. */
  predicate Overdue(item: Item, beforeNow: string -> bool) {
    Counted(item) && item.dueDate.Some? && item.dueDate.value != "" && beforeNow(item.dueDate.value)
  }

  /** How many of `items` satisfy `p`. */
  function Count(items: seq<Item>, p: Item -> bool): nat {
    if items == [] then 0
    else Count(items[..|items| - 1], p) + (if p(items[|items| - 1]) then 1 else 0)
  }

  method CalculatePrioritySummary(items: seq<Item>, beforeNow: string -> bool) returns (summary: PrioritySummary)
    ensures summary.critical == Count(items, CriticalOpen)
    ensures summary.high == Count(items, HighOpen)
    ensures summary.ordered == Count(items, OrderedMaterial)
    ensures summary.overdue == Count(items, item => Overdue(item, beforeNow))
  {
    summary := PrioritySummary(0, 0, 0, 0);
    var i := 0;
    while i < |items|
      invariant 0 <= i <= |items|
      invariant summary.critical == Count(items[..i], CriticalOpen)
      invariant summary.high == Count(items[..i], HighOpen)
      invariant summary.ordered == Count(items[..i], OrderedMaterial)
      invariant summary.overdue == Count(items[..i], item => Overdue(item, beforeNow))
    {
      var item := items[i];
      assert items[..i + 1][..i] == items[..i];
      if item.status != Done {
        if item.priority == Critical {
          summary := summary.(critical := summary.critical + 1);
        }
        if item.priority == High {
          summary := summary.(high := summary.high + 1);
        }
        if item.itemType == Material && item.status == Ordered {
          summary := summary.(ordered := summary.ordered + 1);
        }
        if item.dueDate.Some? && item.dueDate.value != "" {
          if beforeNow(item.dueDate.value) {
            summary := summary.(overdue := summary.overdue + 1);
          }
        }
      }
      i := i + 1;
    }
    assert items[..i] == items;
  }

  /** Counting a weaker predicate never gives less. */
  lemma {:induction false} CountMonotone(items: seq<Item>, p: Item -> bool, q: Item -> bool)
    requires forall x :: p(x) ==> q(x)
    ensures Count(items, p) <= Count(items, q)
  {
    if items != [] {
      CountMonotone(items[..|items| - 1], p, q);
    }
  }

  /** Two disjoint predicates together count no more than a predicate implied by both. */
  lemma {:induction false} CountDisjointSum(items: seq<Item>, p: Item -> bool, q: Item -> bool, u: Item -> bool)
    requires forall x :: !(p(x) && q(x))
    requires forall x :: (p(x) || q(x)) ==> u(x)
    ensures Count(items, p) + Count(items, q) <= Count(items, u)
  {
    if items != [] {
      CountDisjointSum(items[..|items| - 1], p, q, u);
    }
  }

  /** Nothing counts when no item is counted; in particular an empty list gives zero. */
  lemma {:induction false} CountNone(items: seq<Item>, p: Item -> bool)
    requires forall k :: 0 <= k < |items| ==> !p(items[k])
    ensures Count(items, p) == 0
  {
    if items != [] {
      CountNone(items[..|items| - 1], p);
    }
  }

  /** Appending one item adds one to a counter exactly when the item satisfies it. */
  lemma CountSnoc(items: seq<Item>, x: Item, p: Item -> bool)
    ensures Count(items + [x], p) == Count(items, p) + (if p(x) then 1 else 0)
  {
    assert (items + [x])[..|items|] == items;
  }

  /** Every counter is bounded by the number of non-done items, and so are
      critical and high together. */
  lemma SummaryBounds(items: seq<Item>, beforeNow: string -> bool)
    ensures Count(items, CriticalOpen) <= Count(items, Counted)
    ensures Count(items, HighOpen) <= Count(items, Counted)
    ensures Count(items, OrderedMaterial) <= Count(items, Counted)
    ensures Count(items, item => Overdue(item, beforeNow)) <= Count(items, Counted)
    ensures Count(items, CriticalOpen) + Count(items, HighOpen) <= Count(items, Counted)
  {
    CountMonotone(items, CriticalOpen, Counted);
    CountMonotone(items, HighOpen, Counted);
    CountMonotone(items, OrderedMaterial, Counted);
    CountMonotone(items, item => Overdue(item, beforeNow), Counted);
    CountDisjointSum(items, CriticalOpen, HighOpen, Counted);
  }

  /** Done items contribute to no counter, so a list of done items sums to zero. */
  lemma DoneItemsCountNothing(items: seq<Item>, beforeNow: string -> bool)
    requires forall k :: 0 <= k < |items| ==> items[k].status == Done
    ensures Count(items, CriticalOpen) == 0 && Count(items, HighOpen) == 0
    ensures Count(items, OrderedMaterial) == 0 && Count(items, item => Overdue(item, beforeNow)) == 0
  {
    CountNone(items, CriticalOpen);
    CountNone(items, HighOpen);
    CountNone(items, OrderedMaterial);
    CountNone(items, item => Overdue(item, beforeNow));
  }

  /** A delivered material or a resolved issue is terminal for rollover yet still
      counts here: only `done` is skipped, so a non-done item adds one to the counter
      of its priority, whatever its status. */
  lemma TerminalButNotDoneStillCounts(items: seq<Item>, x: Item)
    requires x.status != Done
    ensures x.priority == Critical ==> Count(items + [x], CriticalOpen) == Count(items, CriticalOpen) + 1
    ensures x.priority == High ==> Count(items + [x], HighOpen) == Count(items, HighOpen) + 1
  {
    CountSnoc(items, x, CriticalOpen);
    CountSnoc(items, x, HighOpen);
  }
}
