/** The visit table of the counter, seen as a value: a map from partition keys
    to items, the month/year key format, the two reads the request handler makes
    and the two update expressions it sends, plus the invariant that ties the
    running total to the visitor hashes recorded in the monthly rows. */
module VisitStore {

  /** An item of the table, reduced to the two attributes the counter uses.
      A monthly row carries `user_hashes`, the `total_visits` row carries
      `visits`; either attribute may be absent. `visits` is an unbounded
      integer, not a double-precision number. */
  datatype Item = Item(userHashes: Option<seq<string>>, visits: Option<int>)

  datatype Option<T> = None | Some(value: T)

  /** The table, keyed by its partition key `pk`. */
  type Table = map<string, Item>

  /** A calendar reading: the short month name and the numeric year, as the
      host locale renders them. */
  datatype CalendarDate = CalendarDate(month: string, year: string)

  const TotalVisitsKey: string := "total_visits"

  /** An item that an update creates when the key is not yet in the table. */
  const NewItem: Item := Item(None, None)

  function ItemAt(items: Table, key: string): Item
  {
    if key in items then items[key] else NewItem
  }

  /** The visitor hashes recorded under `key`; an absent row or attribute is
      the empty list, as `if_not_exists(user_hashes, :empty)` reads it. */
  function Visitors(items: Table, key: string): seq<string>
  {
    match ItemAt(items, key).userHashes
    case Some(hashes) => hashes
    case None => []
  }

  /** The running total as `if_not_exists(visits, :zero)` reads it. */
  function Counter(items: Table): int
  {
    match ItemAt(items, TotalVisitsKey).visits
    case Some(n) => n
    case None => 0
  }

  /** The key of the monthly row, `visit#<month>#<year>`. A monthly row is
      never the counter row. */
  function MonthYearKey(date: CalendarDate): (key: string)
    ensures key != TotalVisitsKey
    ensures |key| == |date.month| + |date.year| + 7
  {
    var key := "visit#" + date.month + "#" + date.year;
    assert key[0] == 'v' != TotalVisitsKey[0];
    key
  }

  /** Two dates whose month names contain no `#` share a monthly row only
      when they have the same month and the same year. */
  lemma MonthYearKeyInjective(d1: CalendarDate, d2: CalendarDate)
    requires '#' !in d1.month && '#' !in d2.month
    requires MonthYearKey(d1) == MonthYearKey(d2)
    ensures d1 == d2
  {
    var s1 := d1.month + "#" + d1.year;
    var s2 := d2.month + "#" + d2.year;
    assert s1 == MonthYearKey(d1)[6..] == MonthYearKey(d2)[6..] == s2;
    // The first `#` of a key sits right after the month name.
    assert forall i :: 0 <= i < |d1.month| ==> s1[i] == d1.month[i] != '#';
    assert forall i :: 0 <= i < |d2.month| ==> s2[i] == d2.month[i] != '#';
    assert s1[|d1.month|] == '#' && s2[|d2.month|] == '#';
    assert |d1.month| == |d2.month|;
    assert d1.month == s1[..|d1.month|] == s2[..|d2.month|] == d2.month;
    assert d1.year == s1[|d1.month| + 1..] == s2[|d2.month| + 1..] == d2.year;
  }

  /** The duplicate check: a read of the current month's row and a membership
      test on its `user_hashes`, false when the row or the list is absent. */
  function CheckDuplicateVisit(items: Table, date: CalendarDate, userHash: string): (duplicate: bool)
    ensures duplicate <==> userHash in Visitors(items, MonthYearKey(date))
  {
    var key := MonthYearKey(date);
    if !(key in items && items[key].userHashes.Some?) then false
    else userHash in items[key].userHashes.value
  }

  /** Only the current month's row decides a duplicate: rows under any other
      key, whatever hashes they hold, do not change the answer. */
  lemma DuplicateCheckIsPerMonth(items: Table, other: Table, date: CalendarDate, userHash: string)
    requires ItemAt(items, MonthYearKey(date)) == ItemAt(other, MonthYearKey(date))
    ensures CheckDuplicateVisit(items, date, userHash) == CheckDuplicateVisit(other, date, userHash)
  {
  }

  /** The read of the `total_visits` row: its `visits`, or 0 when the row or
      the attribute is absent or falsy. This agrees with the counter as the
      increment expression reads it. */
  function GetTotalVisitCount(items: Table): (visits: int)
    ensures visits == Counter(items)
  {
    if !(TotalVisitsKey in items && items[TotalVisitsKey].visits.Some?
         && items[TotalVisitsKey].visits.value != 0)
    then 0
    else items[TotalVisitsKey].visits.value
  }

  /** `SET user_hashes = list_append(if_not_exists(user_hashes, :empty), :user_hash)`
      on row `key`: the hash goes at the end of that row's list, every other
      row and the row's other attribute stay as they were. */
  function AppendUserHash(items: Table, key: string, userHash: string): (updated: Table)
    ensures key in updated && Visitors(updated, key) == Visitors(items, key) + [userHash]
    ensures updated[key].visits == ItemAt(items, key).visits
    ensures updated.Keys == items.Keys + {key}
    ensures forall k :: k in items && k != key ==> updated[k] == items[k]
  {
    items[key := ItemAt(items, key).(userHashes := Some(Visitors(items, key) + [userHash]))]
  }

  /** `SET visits = if_not_exists(visits, :zero) + :incr` on the `total_visits`
      row: the counter goes up by one, every other row and the row's list stay
      as they were. */
  function IncrementVisits(items: Table): (updated: Table)
    ensures TotalVisitsKey in updated && Counter(updated) == Counter(items) + 1
    ensures updated[TotalVisitsKey].visits == Some(Counter(items) + 1)
    ensures updated[TotalVisitsKey].userHashes == ItemAt(items, TotalVisitsKey).userHashes
    ensures updated.Keys == items.Keys + {TotalVisitsKey}
    ensures forall k :: k in items && k != TotalVisitsKey ==> updated[k] == items[k]
  {
    items[TotalVisitsKey := ItemAt(items, TotalVisitsKey).(visits := Some(Counter(items) + 1))]
  }

  /** The two updates of an accepted visit, in the order they are sent. */
  function RecordVisit(items: Table, key: string, userHash: string): Table
  {
    IncrementVisits(AppendUserHash(items, key, userHash))
  }

  /** An accepted visit touches exactly two rows: the month's list grows by the
      hash at its end, the counter grows by one, and every other key keeps its
      item (or stays absent). */
  lemma RecordVisitTouchesTwoRows(items: Table, date: CalendarDate, userHash: string)
    ensures var key := MonthYearKey(date);
            var updated := RecordVisit(items, key, userHash);
            && Visitors(updated, key) == Visitors(items, key) + [userHash]
            && Counter(updated) == Counter(items) + 1
            && updated.Keys == items.Keys + {key, TotalVisitsKey}
            && forall k :: k in items && k != key && k != TotalVisitsKey ==> updated[k] == items[k]
  {
  }

  /** How many visitor hashes an item records. */
  function HashCount(item: Item): nat
  {
    match item.userHashes
    case Some(hashes) => |hashes|
    case None => 0
  }

  /** The number of visitor hashes recorded across all rows of the table. */
  ghost function RecordedVisits(items: Table): nat
    decreases |items.Keys|
  {
    if items.Keys == {} then 0
    else
      var k :| k in items.Keys;
      assert |(items - {k}).Keys| < |items.Keys| by {
        assert (items - {k}).Keys == items.Keys - {k};
      }
      HashCount(items[k]) + RecordedVisits(items - {k})
  }

  /** Any row can be split off the sum, not only the one the definition picks. */
  lemma {:induction false} RecordedVisitsSplit(items: Table, k: string)
    requires k in items
    ensures RecordedVisits(items) == HashCount(items[k]) + RecordedVisits(items - {k})
    decreases |items.Keys|
  {
    var j :| j in items.Keys && RecordedVisits(items) == HashCount(items[j]) + RecordedVisits(items - {j});
    if j != k {
      assert (items - {j}).Keys == items.Keys - {j};
      assert (items - {k}).Keys == items.Keys - {k};
      RecordedVisitsSplit(items - {j}, k);
      RecordedVisitsSplit(items - {k}, j);
      assert items - {j} - {k} == items - {k} - {j};
    }
  }

  /** Replacing the item under one key changes the sum by the difference of the
      two hash counts (an absent key counts as an item with no hashes). */
  lemma RecordedVisitsUpdate(items: Table, key: string, item: Item)
    ensures RecordedVisits(items[key := item]) + HashCount(ItemAt(items, key))
            == RecordedVisits(items) + HashCount(item)
  {
    var updated := items[key := item];
    RecordedVisitsSplit(updated, key);
    assert updated - {key} == items - {key};
    if key in items {
      RecordedVisitsSplit(items, key);
    } else {
      assert items - {key} == items;
    }
  }

  /** The table invariant: the running total equals the number of visitor
      hashes recorded in all rows (so it is never negative). */
  ghost predicate Consistent(items: Table)
  {
    Counter(items) == RecordedVisits(items)
  }

  /** An accepted visit keeps the invariant, and the counter it returns is at
      least 1, so the "total_visits row not updated" branch cannot be taken. */
  lemma RecordVisitKeepsConsistent(items: Table, date: CalendarDate, userHash: string)
    requires Consistent(items)
    ensures Consistent(RecordVisit(items, MonthYearKey(date), userHash))
    ensures Counter(RecordVisit(items, MonthYearKey(date), userHash)) == Counter(items) + 1 >= 1
  {
    var key := MonthYearKey(date);
    var appended := AppendUserHash(items, key, userHash);
    RecordedVisitsUpdate(items, key, appended[key]);
    assert HashCount(appended[key]) == HashCount(ItemAt(items, key)) + 1;
    var updated := IncrementVisits(appended);
    RecordedVisitsUpdate(appended, TotalVisitsKey, updated[TotalVisitsKey]);
    assert appended[TotalVisitsKey := updated[TotalVisitsKey]] == updated;
  }
}
