/** Which block an allocation gives, in every case, and what it leaves alone. */
module PpmdChoices {
  import opened Prelude
  import opened PpmdTiling
  import opened PpmdLists
  import opened PpmdBooks
  import opened PpmdRuns

  /** A block of the class itself is taken first, from the front of its list. */
  lemma OwnClassFirst(g: Books, a: Area, text: nat, count: int, index: nat)
    requires index < CLASSES && g.lists[index] != []
    ensures var o, b := Allocated(g, a, text, count, index), g.lists[index][0];
            && o.address == b && o.a == a && o.count == count && o.g.live == g.live + {b} && o.g.t == g.t
            && forall i | 0 <= i < CLASSES :: o.g.lists[i] == if i == index then g.lists[i][1..] else g.lists[i]
  {
  }

  /** Then the bottom of the gap, down to its last byte. */
  lemma GapSecond(g: Books, a: Area, text: nat, count: int, index: nat)
    requires index < CLASSES && g.lists[index] == [] && a.low + 12 * Units(index) <= a.high
    ensures var o := Allocated(g, a, text, count, index);
            && o.address == a.low && o.a == a.(low := a.low + 12 * Units(index)) && o.count == count
            && o.g.lists == g.lists && o.g.live == g.live + {a.low}
  {
  }

  /** Then the smallest larger class with a block, unless gluing is due; gluing comes no nearer. */
  lemma LargerThird(g: Books, a: Area, text: nat, count: int, index: nat, larger: nat)
    requires index < larger < CLASSES && count != 0 && g.lists[index] == [] && a.low + 12 * Units(index) > a.high
    requires g.lists[larger] != [] && forall i | index < i < larger :: g.lists[i] == []
    ensures var o := Allocated(g, a, text, count, index);
            o.address == g.lists[larger][0] && o.a == a && o.count == count
  {
    FirstIs(g.lists, index + 1, larger);
  }

  lemma {:induction false} FirstIs(lists: FreeLists, i: nat, j: nat)
    requires i <= j <= CLASSES && (j < CLASSES ==> lists[j] != []) && forall k | i <= k < j :: lists[k] == []
    ensures FirstListed(lists, i) == j
    decreases j - i
  {
    if i < j { FirstIs(lists, i + 1, j); }
  }

  /** Last the room above the text, of which at least one byte stays; each time gluing comes one step nearer. */
  lemma RoomLast(g: Books, a: Area, text: nat, count: int, index: nat)
    requires index < CLASSES && count != 0 && a.low + 12 * Units(index) > a.high
    requires forall i | index <= i < CLASSES :: g.lists[i] == []
    ensures var o, bytes := Allocated(g, a, text, count, index), 12 * Units(index);
            && o.count == count - 1
            && if a.start - text > bytes then
                 && o.address == a.start - bytes && o.a == a.(start := a.start - bytes)
                 && o.g.lists == g.lists && o.g.live == g.live + {a.start - bytes}
               else o.address == 0 && o.a == a && o.g == g
  {
    FirstIs(g.lists, index + 1, CLASSES);
  }

  /** When gluing is due the same choices are made over the glued lists, and the next gluing is 255 failures away. */
  lemma GluedWhenDue(g: Books, a: Area, text: nat, index: nat)
    requires index < CLASSES && g.lists[index] == [] && a.low + 12 * Units(index) > a.high
    ensures Allocated(g, a, text, 0, index) == Allocated(GluedBooks(g), a, text, 255, index)
  {
    hide GluedBooks, FromLarger;
  }

  /** A context takes the top of the gap first. */
  lemma ContextFromTop(g: Books, a: Area, text: nat, count: int)
    requires a.low < a.high && a.high >= 12
    ensures var o := NewContext(g, a, text, count);
            && o.address == a.high - 12 && o.a == a.(high := a.high - 12) && o.count == count
            && o.g.lists == g.lists && o.g.live == g.live + {a.high - 12}
  {
  }

  /** With the gap used up it is an allocation of one unit. */
  lemma ContextElsewhere(g: Books, a: Area, text: nat, count: int)
    requires a.low == a.high
    ensures NewContext(g, a, text, count) == Allocated(g, a, text, count, 0)
  {
    hide GluedBooks, FromLarger;
  }
}
