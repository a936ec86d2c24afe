/** The item rollover engine: which open items of one day-entry carry forward to
    the next, and how each carried item is re-keyed with one hop of lineage. */
module Rollover {
  import opened Domain

  /** The rule table as data: the one status that ends an item of each known type;
      unknown types have none. `ShouldRollover` is stated against it. */
  function TerminalStatus(t: ItemType): Option<ItemStatus> {
    match t
    case Task => Some(Done)
    case Material => Some(Delivered)
    case Issue => Some(Resolved)
    case Delay => Some(Closed)
    case Email => Some(Sent)
    case Unknown(_) => None
  }

  /** True when the item is unfinished work that must reappear on the next day.
      An unrecognised type is never carried forward (fail-closed default). */
  function ShouldRollover(item: Item): (r: bool)
    ensures r <==> TerminalStatus(item.itemType).Some? && item.status != TerminalStatus(item.itemType).value
    ensures r ==> !item.itemType.Unknown?
  {
    match item.itemType
    case Task => item.status != Done
    case Material => item.status != Delivered
    case Issue => item.status != Resolved
    case Delay => item.status != Closed
    case Email => item.status != Sent
    case _ => false
  }

  /** The rule table, one line per type. */
  lemma ShouldRolloverTable(item: Item)
    ensures item.itemType == Task ==> (ShouldRollover(item) <==> item.status != Done)
    ensures item.itemType == Material ==> (ShouldRollover(item) <==> item.status != Delivered)
    ensures item.itemType == Issue ==> (ShouldRollover(item) <==> item.status != Resolved)
    ensures item.itemType == Delay ==> (ShouldRollover(item) <==> item.status != Closed)
    ensures item.itemType == Email ==> (ShouldRollover(item) <==> item.status != Sent)
    ensures item.itemType.Unknown? ==> !ShouldRollover(item)
  {
  }

  /** `items.filter(shouldRollover)`. */
  function Carried(items: seq<Item>): (r: seq<Item>)
    ensures |r| <= |items|
    ensures forall x :: x in r ==> x in items && ShouldRollover(x)
  {
    if items == [] then []
    else if ShouldRollover(items[0]) then [items[0]] + Carried(items[1..])
    else Carried(items[1..])
  }

  ghost predicate Increasing(idx: seq<nat>) {
    forall a, b :: 0 <= a < b < |idx| ==> idx[a] < idx[b]
  }

  /** Every position moved one place to the right. */
  function Shift(idx: seq<nat>): (r: seq<nat>)
    ensures |r| == |idx|
    ensures forall k :: 0 <= k < |idx| ==> r[k] == idx[k] + 1
  {
    seq(|idx|, k requires 0 <= k < |idx| => idx[k] + 1)
  }

  lemma ShiftMembers(idx: seq<nat>, i: int)
    requires i >= 1
    ensures i in Shift(idx) <==> i - 1 in idx
  {
    if i - 1 in idx {
      var k :| 0 <= k < |idx| && idx[k] == i - 1;
      assert Shift(idx)[k] == i;
    }
  }

  /** The positions of the items that pass the predicate: an independent
      description of which inputs a filter must keep. */
  ghost function KeptPositions(items: seq<Item>): (idx: seq<nat>)
    ensures forall k :: 0 <= k < |idx| ==> idx[k] < |items|
  {
    if items == [] then []
    else
      var tail := KeptPositions(items[1..]);
      if ShouldRollover(items[0]) then [0] + Shift(tail) else Shift(tail)
  }

  /** The kept positions are increasing and are exactly those of the qualifying items. */
  lemma {:induction false} KeptPositionsExact(items: seq<Item>)
    ensures Increasing(KeptPositions(items))
    ensures forall i :: 0 <= i < |items| ==> (ShouldRollover(items[i]) <==> i in KeptPositions(items))
  {
    if items != [] {
      var tail := items[1..];
      KeptPositionsExact(tail);
      var kt := KeptPositions(tail);
      forall i | 1 <= i < |items|
        ensures ShouldRollover(items[i]) <==> i in Shift(kt)
      {
        ShiftMembers(kt, i);
        assert items[i] == tail[i - 1];
      }
    }
  }

  /** The filter keeps exactly the qualifying inputs, in their original order. */
  lemma {:induction false} CarriedSelects(items: seq<Item>)
    ensures |Carried(items)| == |KeptPositions(items)|
    ensures forall k :: 0 <= k < |Carried(items)| ==> Carried(items)[k] == items[KeptPositions(items)[k]]
  {
    if items != [] {
      var tail := items[1..];
      CarriedSelects(tail);
      var c, ct := Carried(items), Carried(tail);
      var kp, kt := KeptPositions(items), KeptPositions(tail);
      if ShouldRollover(items[0]) {
        assert c == [items[0]] + ct && kp == [0] + Shift(kt);
        forall k | 1 <= k < |c|
          ensures c[k] == items[kp[k]]
        {
          assert c[k] == ct[k - 1] && kp[k] == kt[k - 1] + 1;
        }
      } else {
        assert c == ct && kp == Shift(kt);
        forall k | 0 <= k < |c|
          ensures c[k] == items[kp[k]]
        {
          assert kp[k] == kt[k] + 1;
        }
      }
    }
  }

  /** A filter over items that all qualify keeps all of them. */
  lemma {:induction false} CarriedAllQualify(items: seq<Item>)
    requires forall k :: 0 <= k < |items| ==> ShouldRollover(items[k])
    ensures Carried(items) == items
  {
    if items != [] {
      CarriedAllQualify(items[1..]);
    }
  }

  /** The fields a rolled item copies unchanged from its source. */
  ghost predicate SameContent(a: Item, b: Item) {
    && a.jobId == b.jobId
    && a.itemType == b.itemType
    && a.title == b.title
    && a.details == b.details
    && a.priority == b.priority
    && a.status == b.status
    && a.dueDate == b.dueDate
    && a.orderByDate == b.orderByDate
    && a.requiredOnSiteDate == b.requiredOnSiteDate
    && a.followUpEmailDueBy == b.followUpEmailDueBy
    && a.assignedTo == b.assignedTo
  }

  /** The object built by the map callback: the source spread, then the overrides. */
  function Rolled(item: Item, newId: Uuid, newDayEntryId: Uuid, todayISO: string): Item {
    item.(id := newId, dayEntryId := newDayEntryId, rolledFromItemId := Some(item.id),
          createdAt := todayISO, updatedAt := todayISO, closedAt := None)
  }

  /** Carries the qualifying items to the new day-entry. `freshId(k)` is the id the
      generator hands out on its k-th call, i.e. to the k-th carried item. */
  function RolloverItems(items: seq<Item>, newDayEntryId: Uuid, todayISO: string,
                         freshId: nat -> Uuid): (r: seq<Item>)
    ensures |r| <= |items|
    ensures items == [] ==> r == []
    ensures |r| == |KeptPositions(items)|
    ensures forall k :: 0 <= k < |r| ==>
      var src := items[KeptPositions(items)[k]];
      && r[k].id == freshId(k)
      && r[k].dayEntryId == newDayEntryId
      && r[k].rolledFromItemId == Some(src.id)
      && r[k].createdAt == todayISO
      && r[k].updatedAt == todayISO
      && r[k].closedAt == None
      && SameContent(r[k], src)
      && ShouldRollover(r[k])
  {
    var toCarry := Carried(items);
    CarriedSelects(items);
    assert forall k :: 0 <= k < |toCarry| ==> toCarry[k] in toCarry;
    seq(|toCarry|, k requires 0 <= k < |toCarry| => Rolled(toCarry[k], freshId(k), newDayEntryId, todayISO))
  }

  /** With an id supply that is injective and avoids the input ids, the output ids are
      pairwise distinct and collide with no input id. */
  lemma RolledIdsAreFresh(items: seq<Item>, newDayEntryId: Uuid, todayISO: string, freshId: nat -> Uuid)
    requires forall a, b :: 0 <= a < b < |items| ==> freshId(a) != freshId(b)
    requires forall k, i :: 0 <= k < |items| && 0 <= i < |items| ==> freshId(k) != items[i].id
    ensures var r := RolloverItems(items, newDayEntryId, todayISO, freshId);
      && (forall a, b :: 0 <= a < b < |r| ==> r[a].id != r[b].id)
      && (forall a, i :: 0 <= a < |r| && 0 <= i < |items| ==> r[a].id != items[i].id)
  {
  }

  /** A rolled batch is still open, so rolling it again carries all of it; the second
      generation points at the first generation's ids, not at the originals. */
  lemma RolledBatchRollsAgain(items: seq<Item>, day1: Uuid, today1: string, ids1: nat -> Uuid,
                              day2: Uuid, today2: string, ids2: nat -> Uuid)
    ensures var once := RolloverItems(items, day1, today1, ids1);
            var twice := RolloverItems(once, day2, today2, ids2);
      && |twice| == |once|
      && forall k :: 0 <= k < |twice| ==>
           twice[k].rolledFromItemId == Some(ids1(k)) && SameContent(twice[k], once[k])
  {
    var once := RolloverItems(items, day1, today1, ids1);
    CarriedAllQualify(once);
    CarriedSelects(once);
    var twice := RolloverItems(once, day2, today2, ids2);
    forall k | 0 <= k < |twice|
      ensures twice[k].rolledFromItemId == Some(ids1(k)) && SameContent(twice[k], once[k])
    {
      assert Carried(once)[k] == once[KeptPositions(once)[k]];
    }
  }

  /** The day-one items of the rollover self-test. The fixture calls `nowISO()` once per
      timestamp field; one `now` stands for all six here, which loses nothing because
      rollover overwrites both fields. */
  function ScenarioItems(now: string): seq<Item> {
    [ Item("1", "job1", "day1", Task, "Install ceiling grid", None, High, Open,
           None, None, None, None, None, None, now, now, None),
      Item("2", "job1", "day1", Material, "Order plasterboard", None, Critical, Ordered,
           None, None, None, None, None, None, now, now, None),
      Item("3", "job1", "day1", Task, "Completed item", None, Normal, Done,
           None, None, None, None, None, None, now, now, None) ]
  }

  /** The open task and the ordered material roll to day2, in that order; the done task stays. */
  lemma RolloverScenario(now: string, todayISO: string, freshId: nat -> Uuid)
    ensures var rolled := RolloverItems(ScenarioItems(now), "day2", todayISO, freshId);
      && |ScenarioItems(now)| == 3
      && |rolled| == 2
      && rolled[0].title == "Install ceiling grid" && rolled[0].rolledFromItemId == Some("1")
      && rolled[1].title == "Order plasterboard" && rolled[1].rolledFromItemId == Some("2")
      && rolled[0].dayEntryId == "day2" && rolled[1].dayEntryId == "day2"
      && rolled[0].id == freshId(0) && rolled[1].id == freshId(1)
  {
    var base := ScenarioItems(now);
    assert Carried(base[2..]) == [];
    assert Carried(base) == [base[0], base[1]];
    CarriedSelects(base);
  }
}
