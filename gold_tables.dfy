/**
 * The gold layer (`build_gold_tables.py`): three tallies of the silver events.
 *  - events_by_minute: events per minute, the time floored to a multiple of 60 s,
 *    in ascending order of minute; building it also adds a `minute` column to the
 *    caller's frame.
 *  - events_by_type: events per event type, in order of non-increasing count.
 *  - user_funnel: a user × event-type pivot of counts, zero where a user has no
 *    event of a type, with the columns `view`, `cart` and `purchase` renamed to
 *    `views`, `carts` and `purchases`.
 */
module GoldTables {
  import opened Options
  import opened Events
  import opened Order
  import opened Tally

  // ---------------------------------------------------------------------------
  // events_by_minute
  // ---------------------------------------------------------------------------

  /** `dt.floor("Min")` on a time in seconds: the start of the minute holding `t`. */
  function FloorToMinute(t: int): (m: int)
    ensures m <= t < m + 60
    ensures m % 60 == 0
  {
    t / 60 * 60
  }

  /** The minute holding `t` is the only multiple of 60 within 60 s at or before `t`. */
  lemma FloorToMinuteUnique(t: int, m: int)
    requires m % 60 == 0 && m <= t < m + 60
    ensures m == FloorToMinute(t)
  {
    var f := FloorToMinute(t);
    assert (m - f) % 60 == 0 && -60 < m - f < 60;
  }

  /** Flooring a minute start leaves it where it is. */
  lemma FloorToMinuteIdempotent(t: int)
    ensures FloorToMinute(FloorToMinute(t)) == FloorToMinute(t)
  {
    FloorToMinuteUnique(FloorToMinute(t), FloorToMinute(t));
  }

  /** The `minute` column of a frame. */
  function MinuteColumn(events: seq<Event>): (ms: seq<int>)
    ensures |ms| == |events|
    ensures forall i :: 0 <= i < |events| ==> ms[i] == FloorToMinute(events[i].time)
  {
    seq(|events|, i requires 0 <= i < |events| => FloorToMinute(events[i].time))
  }

  /**
   * `groupby("minute").size()` sorted by minute: one row per minute that holds an
   * event, in strictly ascending order, each with the number of events in it.
   */
  function EventsByMinute(events: seq<Event>): (table: seq<Tallied<int>>)
    ensures forall i, j :: 0 <= i < j < |table| ==> table[i].key < table[j].key
    ensures forall m :: (exists j :: 0 <= j < |table| && table[j].key == m) <==> m in MinuteColumn(events)
    ensures forall j :: 0 <= j < |table| ==> table[j].count == Count(MinuteColumn(events), table[j].key) >= 1
  {
    var minutes := MinuteColumn(events);
    var keys := UniqueSortedInts(minutes);
    var table := Tallies(keys, minutes);
    assert forall m :: m in keys ==> exists j :: 0 <= j < |table| && table[j].key == m;
    table
  }

  /** The per-minute counts add up to the number of events. */
  lemma EventsByMinuteTotal(events: seq<Event>)
    ensures Total(EventsByMinute(events)) == |events|
  {
    var minutes := MinuteColumn(events);
    var keys := UniqueSortedInts(minutes);
    assert NoDuplicates(keys);
    TalliesTotal(keys, minutes);
  }

  /** The frame `build_events_by_minute` receives, with its optional `minute` column. */
  class EventsFrame {
    var events: seq<Event>
    var minute: Option<seq<int>>

    constructor(events: seq<Event>)
      ensures this.events == events && minute == None
    {
      this.events := events;
      minute := None;
    }

    /**
     * `build_events_by_minute`: writes the `minute` column into this frame, leaving
     * the events as they are, and returns the per-minute table.
     */
    method BuildEventsByMinute() returns (table: seq<Tallied<int>>)
      modifies this
      ensures events == old(events)
      ensures minute == Some(MinuteColumn(events))
      ensures table == EventsByMinute(events)
    {
      minute := Some(MinuteColumn(events));
      table := EventsByMinute(events);
    }
  }

  // ---------------------------------------------------------------------------
  // events_by_type
  // ---------------------------------------------------------------------------

  /** The `event_type` column. */
  function EventTypes(events: seq<Event>): (ts: seq<string>)
    ensures |ts| == |events|
    ensures forall i :: 0 <= i < |events| ==> ts[i] == events[i].etype
  {
    seq(|events|, i requires 0 <= i < |events| => events[i].etype)
  }

  predicate NonIncreasing(s: seq<Tallied<string>>) {
    forall i, j :: 0 <= i < j < |s| ==> s[i].count >= s[j].count
  }

  /** No count in `t` exceeds `c`. */
  predicate AllAtMost(c: nat, t: seq<Tallied<string>>) {
    forall k :: 0 <= k < |t| ==> t[k].count <= c
  }

  lemma AllAtMostPermutation(c: nat, a: seq<Tallied<string>>, b: seq<Tallied<string>>)
    requires multiset(a) == multiset(b) && AllAtMost(c, a)
    ensures AllAtMost(c, b)
  {
    forall k | 0 <= k < |b| ensures b[k].count <= c {
      assert b[k] in multiset(a);
    }
  }

  lemma PrependNonIncreasing(y: Tallied<string>, t: seq<Tallied<string>>)
    requires NonIncreasing(t) && AllAtMost(y.count, t)
    ensures NonIncreasing([y] + t)
  {
  }

  /** Places `x` in front of the first row whose count does not exceed its own. */
  function InsertByCount(x: Tallied<string>, s: seq<Tallied<string>>): (r: seq<Tallied<string>>)
    requires NonIncreasing(s)
    ensures NonIncreasing(r)
    ensures multiset(r) == multiset(s) + multiset{x}
    ensures |r| == |s| + 1
  {
    if s == [] then [x]
    else if x.count >= s[0].count then [x] + s
    else
      var t := InsertByCount(x, s[1..]);
      assert AllAtMost(s[0].count, s[1..] + [x]);
      AllAtMostPermutation(s[0].count, s[1..] + [x], t);
      PrependNonIncreasing(s[0], t);
      assert s == [s[0]] + s[1..];
      [s[0]] + t
  }

  /** `sort_values("events_count", ascending=False)`: a permutation of the rows by non-increasing count. */
  function SortByCountDesc(s: seq<Tallied<string>>): (r: seq<Tallied<string>>)
    ensures NonIncreasing(r)
    ensures multiset(r) == multiset(s)
    ensures |r| == |s|
  {
    if s == [] then []
    else
      assert s == [s[0]] + s[1..];
      InsertByCount(s[0], SortByCountDesc(s[1..]))
  }

  lemma {:induction false} InsertByCountTotal(x: Tallied<string>, s: seq<Tallied<string>>)
    requires NonIncreasing(s)
    ensures Total(InsertByCount(x, s)) == x.count + Total(s)
  {
    if s != [] && x.count < s[0].count {
      InsertByCountTotal(x, s[1..]);
    }
  }

  /** Sorting moves rows around and so keeps the sum of the counts. */
  lemma {:induction false} SortByCountDescTotal(s: seq<Tallied<string>>)
    ensures Total(SortByCountDesc(s)) == Total(s)
  {
    if s != [] {
      SortByCountDescTotal(s[1..]);
      InsertByCountTotal(s[0], SortByCountDesc(s[1..]));
    }
  }

  /** `build_events_by_type`: per-type counts, largest first. */
  function EventsByType(events: seq<Event>): (table: seq<Tallied<string>>)
    ensures NonIncreasing(table)
    ensures multiset(table) == multiset(Tallies(UniqueSorted(EventTypes(events)), EventTypes(events)))
    ensures |table| == |UniqueSorted(EventTypes(events))|
  {
    var types := EventTypes(events);
    SortByCountDesc(Tallies(UniqueSorted(types), types))
  }

  /**
   * Every row of events_by_type is a type that occurs, with the number of its
   * events; every type that occurs has a row; no type has two rows.
   */
  lemma EventsByTypeRows(events: seq<Event>)
    ensures var table := EventsByType(events);
      forall j :: 0 <= j < |table| ==>
        table[j].key in EventTypes(events) && table[j].count == Count(EventTypes(events), table[j].key)
    ensures var table := EventsByType(events);
      forall t :: t in EventTypes(events) ==> Tallied(t, Count(EventTypes(events), t)) in table
    ensures var table := EventsByType(events);
      forall i, j :: 0 <= i < j < |table| ==> table[i].key != table[j].key
  {
    var types := EventTypes(events);
    var keys := UniqueSorted(types);
    var tallies := Tallies(keys, types);
    var table := EventsByType(events);
    forall j | 0 <= j < |table|
      ensures table[j].key in types && table[j].count == Count(types, table[j].key)
    {
      assert table[j] in multiset(tallies);
    }
    forall t | t in types ensures Tallied(t, Count(types, t)) in table {
      var k :| 0 <= k < |keys| && keys[k] == t;
      assert tallies[k] in multiset(table);
    }
    assert DistinctKeys(tallies) by {
      forall i, j | 0 <= i < j < |tallies| ensures tallies[i].key != tallies[j].key {
        AscendingDistinct(keys, i, j);
      }
    }
    SortKeepsDistinctKeys(tallies);
  }

  /** No key occurs in two rows. */
  predicate DistinctKeys(s: seq<Tallied<string>>) {
    forall i, j :: 0 <= i < j < |s| ==> s[i].key != s[j].key
  }

  /** No row of `t` has key `k`. */
  predicate KeyAbsent(k: string, t: seq<Tallied<string>>) {
    forall i :: 0 <= i < |t| ==> t[i].key != k
  }

  lemma KeyAbsentPermutation(k: string, a: seq<Tallied<string>>, b: seq<Tallied<string>>)
    requires multiset(a) == multiset(b) && KeyAbsent(k, a)
    ensures KeyAbsent(k, b)
  {
    forall i | 0 <= i < |b| ensures b[i].key != k {
      assert b[i] in multiset(a);
    }
  }

  lemma {:induction false} InsertKeepsDistinctKeys(x: Tallied<string>, s: seq<Tallied<string>>)
    requires NonIncreasing(s) && DistinctKeys(s) && KeyAbsent(x.key, s)
    ensures DistinctKeys(InsertByCount(x, s))
  {
    if s != [] && x.count < s[0].count {
      InsertKeepsDistinctKeys(x, s[1..]);
      var t := InsertByCount(x, s[1..]);
      assert KeyAbsent(s[0].key, s[1..] + [x]);
      KeyAbsentPermutation(s[0].key, s[1..] + [x], t);
    }
  }

  /** Sorting by count keeps the rows' keys distinct. */
  lemma {:induction false} SortKeepsDistinctKeys(s: seq<Tallied<string>>)
    requires DistinctKeys(s)
    ensures DistinctKeys(SortByCountDesc(s))
  {
    if s != [] {
      SortKeepsDistinctKeys(s[1..]);
      KeyAbsentPermutation(s[0].key, s[1..], SortByCountDesc(s[1..]));
      InsertKeepsDistinctKeys(s[0], SortByCountDesc(s[1..]));
    }
  }

  /** The per-type counts add up to the number of events. */
  lemma EventsByTypeTotal(events: seq<Event>)
    ensures Total(EventsByType(events)) == |events|
  {
    var types := EventTypes(events);
    var keys := UniqueSorted(types);
    assert NoDuplicates(keys) by {
      forall i, j | 0 <= i < j < |keys| ensures keys[i] != keys[j] {
        AscendingDistinct(keys, i, j);
      }
    }
    TalliesTotal(keys, types);
    SortByCountDescTotal(Tallies(keys, types));
  }

  /** events_by_type is empty exactly when there are no events. */
  lemma EventsByTypeNonEmpty(events: seq<Event>)
    ensures |EventsByType(events)| > 0 <==> |events| > 0
  {
    if |events| > 0 {
      assert EventTypes(events)[0] in UniqueSorted(EventTypes(events));
    }
  }

  // ---------------------------------------------------------------------------
  // user_funnel
  // ---------------------------------------------------------------------------

  /** The `user_id` column. */
  function EventUsers(events: seq<Event>): (us: seq<string>)
    ensures |us| == |events|
    ensures forall i :: 0 <= i < |events| ==> us[i] == events[i].user
  {
    seq(|events|, i requires 0 <= i < |events| => events[i].user)
  }

  /** The event types of the events of `user`, in row order. */
  function TypesOfUser(events: seq<Event>, user: string): seq<string> {
    if events == [] then []
    else
      var rest := TypesOfUser(events[1..], user);
      if events[0].user == user then [events[0].etype] + rest else rest
  }

  /** A user's types are as many as the user's events, and each is a type that occurs. */
  lemma {:induction false} TypesOfUserSpec(events: seq<Event>, user: string)
    ensures |TypesOfUser(events, user)| == Count(EventUsers(events), user)
    ensures forall t :: t in TypesOfUser(events, user) ==> t in EventTypes(events)
  {
    if events != [] {
      TypesOfUserSpec(events[1..], user);
      ColumnsTail(events);
      var types := EventTypes(events);
      forall t | t in TypesOfUser(events, user) ensures t in types {
        if t != events[0].etype {
          assert t in types[1..];
        }
      }
    }
  }

  lemma ColumnsTail(events: seq<Event>)
    requires events != []
    ensures EventUsers(events)[1..] == EventUsers(events[1..])
    ensures EventTypes(events)[1..] == EventTypes(events[1..])
  {
  }

  /** The number of events of `user` with type `etype`: the reference a pivot cell is held to. */
  function PairCount(events: seq<Event>, user: string, etype: string): (n: nat)
    ensures n == 0 <==> forall i :: 0 <= i < |events| ==> !(events[i].user == user && events[i].etype == etype)
  {
    if events == [] then 0
    else
      var rest := PairCount(events[1..], user, etype);
      assert forall i :: 1 <= i < |events| ==> events[i] == events[1..][i - 1];
      (if events[0].user == user && events[0].etype == etype then 1 else 0) + rest
  }

  lemma {:induction false} TypesOfUserCount(events: seq<Event>, user: string, etype: string)
    ensures Count(TypesOfUser(events, user), etype) == PairCount(events, user, etype)
  {
    if events != [] {
      TypesOfUserCount(events[1..], user, etype);
    }
  }

  /** One row of the pivot: a user and one count per event-type column. */
  datatype FunnelRow = FunnelRow(user: string, cells: seq<nat>)

  /** A table with named columns; the first column holds the users. */
  datatype Funnel = Funnel(columns: seq<string>, rows: seq<FunnelRow>)

  /**
   * `pivot_table(index="user_id", columns="event_type", aggfunc="count",
   * fill_value=0).reset_index()`: the column `user_id` followed by one column per
   * event type, and one row per user, both in ascending order. When some event type
   * is itself `user_id`, `reset_index` cannot insert the index as a column of that
   * name (it raises `ValueError`): there is no pivot.
   */
  function Pivot(events: seq<Event>): (p: Option<Funnel>)
    ensures p.None? <==> "user_id" in EventTypes(events)
    ensures p.Some? ==> p.value.columns == ["user_id"] + UniqueSorted(EventTypes(events))
    ensures p.Some? ==> |p.value.rows| == |UniqueSorted(EventUsers(events))|
    ensures p.Some? ==> forall i :: 0 <= i < |p.value.rows| ==>
      p.value.rows[i].user == UniqueSorted(EventUsers(events))[i]
      && p.value.rows[i].cells == CountsOf(UniqueSorted(EventTypes(events)), TypesOfUser(events, p.value.rows[i].user))
  {
    var users := UniqueSorted(EventUsers(events));
    var types := UniqueSorted(EventTypes(events));
    if "user_id" in types then None
    else
      Some(Funnel(["user_id"] + types,
        seq(|users|, i requires 0 <= i < |users| => FunnelRow(users[i], CountsOf(types, TypesOfUser(events, users[i]))))))
  }

  /** The pivot has one row per distinct user, in ascending order of user. */
  lemma PivotUsers(events: seq<Event>)
    requires Pivot(events).Some?
    ensures var rows := Pivot(events).value.rows;
      forall i, j :: 0 <= i < j < |rows| ==> Less(rows[i].user, rows[j].user)
    ensures var rows := Pivot(events).value.rows;
      forall u :: (exists i :: 0 <= i < |rows| && rows[i].user == u) <==> u in EventUsers(events)
  {
    var users := UniqueSorted(EventUsers(events));
    var rows := Pivot(events).value.rows;
    forall u | u in EventUsers(events) ensures exists i :: 0 <= i < |rows| && rows[i].user == u {
      var i :| 0 <= i < |users| && users[i] == u;
      assert rows[i].user == u;
    }
  }

  /** Each cell is the number of events of its user and its column's type, and 0 exactly when there is none. */
  lemma PivotCell(events: seq<Event>, i: nat, j: nat)
    requires Pivot(events).Some?
    requires i < |Pivot(events).value.rows| && j < |UniqueSorted(EventTypes(events))|
    ensures var u, t := Pivot(events).value.rows[i].user, UniqueSorted(EventTypes(events))[j];
      Pivot(events).value.rows[i].cells[j] == PairCount(events, u, t)
    ensures var u, t := Pivot(events).value.rows[i].user, UniqueSorted(EventTypes(events))[j];
      Pivot(events).value.rows[i].cells[j] == 0 <==>
        forall k :: 0 <= k < |events| ==> !(events[k].user == u && events[k].etype == t)
  {
    TypesOfUserCount(events, Pivot(events).value.rows[i].user, UniqueSorted(EventTypes(events))[j]);
  }

  /** A row's cells add up to the number of events of its user. */
  lemma PivotRowTotal(events: seq<Event>, i: nat)
    requires Pivot(events).Some? && i < |Pivot(events).value.rows|
    ensures Sum(Pivot(events).value.rows[i].cells) == Count(EventUsers(events), Pivot(events).value.rows[i].user)
  {
    var types := UniqueSorted(EventTypes(events));
    var user := Pivot(events).value.rows[i].user;
    var ts := TypesOfUser(events, user);
    TypesOfUserSpec(events, user);
    assert NoDuplicates(types) by {
      forall a, b | 0 <= a < b < |types| ensures types[a] != types[b] {
        AscendingDistinct(types, a, b);
      }
    }
    SumCountsOf(types, ts);
    CountsPartition(types, ts);
  }

  /** The readable name of a pivot column. */
  function ReadableName(c: string): (r: string)
    ensures c == "view" ==> r == "views"
    ensures c == "cart" ==> r == "carts"
    ensures c == "purchase" ==> r == "purchases"
    ensures c != "view" && c != "cart" && c != "purchase" ==> r == c
  {
    if c == "view" then "views"
    else if c == "cart" then "carts"
    else if c == "purchase" then "purchases"
    else c
  }

  /** Each column replaced by its readable name, in place. */
  function Renamed(columns: seq<string>): (r: seq<string>)
    ensures |r| == |columns|
    ensures forall k :: 0 <= k < |r| ==> r[k] == ReadableName(columns[k])
  {
    seq(|columns|, k requires 0 <= k < |columns| => ReadableName(columns[k]))
  }

  /** The `rename_map` loop: each column mapped to its readable name. */
  method RenameMap(columns: seq<string>) returns (m: map<string, string>)
    ensures m.Keys == set c | c in columns
    ensures forall c :: c in columns ==> m[c] == ReadableName(c)
  {
    m := map[];
    for i := 0 to |columns|
      invariant m.Keys == set c | c in columns[..i]
      invariant forall c :: c in columns[..i] ==> m[c] == ReadableName(c)
    {
      var col := columns[i];
      var newCol := col;
      if col == "view" {
        newCol := "views";
      }
      if col == "cart" {
        newCol := "carts";
      }
      if col == "purchase" {
        newCol := "purchases";
      }
      m := m[col := newCol];
      assert columns[..i + 1] == columns[..i] + [col];
    }
    assert columns[..|columns|] == columns;
  }

  /**
   * `build_user_funnel`: the pivot with its columns renamed; `None` where building
   * the pivot raises.
   */
  method BuildUserFunnel(events: seq<Event>) returns (f: Option<Funnel>)
    ensures f.None? <==> Pivot(events).None?
    ensures f.Some? ==> f.value.columns == Renamed(Pivot(events).value.columns) && f.value.columns[0] == "user_id"
    ensures f.Some? ==> f.value.rows == Pivot(events).value.rows
  {
    var pivot := Pivot(events);
    if pivot.None? {
      return None;
    }
    var p := pivot.value;
    var renameMap := RenameMap(p.columns);
    var columns := seq(|p.columns|, k requires 0 <= k < |p.columns| => renameMap[p.columns[k]]);
    f := Some(Funnel(columns, p.rows));
  }

  /** One more event adds one to its own (user, type) pair and nothing to any other. */
  lemma PairCountCons(e: Event, rest: seq<Event>, user: string, etype: string)
    ensures PairCount([e] + rest, user, etype) == (if e.user == user && e.etype == etype then 1 else 0) + PairCount(rest, user, etype)
  {
    assert ([e] + rest)[1..] == rest;
  }

  /** A user with three views and a cart, next to a user who purchased: the pairs count 3, 1 and 0. */
  lemma FunnelPairCounts(u: string, v: string, t: string)
    requires u != v && t in {"view", "cart", "purchase"}
    ensures var events := [Event(u, 0, "view"), Event(u, 60, "view"), Event(u, 120, "view"),
                           Event(u, 180, "cart"), Event(v, 240, "purchase")];
      PairCount(events, u, t) == if t == "view" then 3 else if t == "cart" then 1 else 0
  {
    var e5 := [Event(v, 240, "purchase")];
    var e4 := [Event(u, 180, "cart")] + e5;
    var e3 := [Event(u, 120, "view")] + e4;
    var e2 := [Event(u, 60, "view")] + e3;
    var e1 := [Event(u, 0, "view")] + e2;
    PairCountCons(Event(v, 240, "purchase"), [], u, t);
    assert [Event(v, 240, "purchase")] + [] == e5;
    PairCountCons(Event(u, 180, "cart"), e5, u, t);
    PairCountCons(Event(u, 120, "view"), e4, u, t);
    PairCountCons(Event(u, 60, "view"), e3, u, t);
    PairCountCons(Event(u, 0, "view"), e2, u, t);
    assert e1 == [Event(u, 0, "view"), Event(u, 60, "view"), Event(u, 120, "view"), Event(u, 180, "cart"), Event(v, 240, "purchase")];
  }

  /** The events of the funnel scenario: u1 views three times and adds to the cart; u2 purchases. */
  function FunnelEvents(): seq<Event> {
    [Event("u1", 0, "view"), Event("u1", 60, "view"), Event("u1", 120, "view"),
     Event("u1", 180, "cart"), Event("u2", 240, "purchase")]
  }

  /** The scenario's type columns: its distinct types in ascending order. */
  lemma FunnelTypes()
    ensures UniqueSorted(EventTypes(FunnelEvents())) == ["cart", "purchase", "view"]
  {
    var ts := EventTypes(FunnelEvents());
    var keys: seq<string> := ["cart", "purchase", "view"];
    assert ts == ["view", "view", "view", "cart", "purchase"];
    assert Less("cart", "purchase") && Less("cart", "view") && Less("purchase", "view");
    assert StrictlyAscending(keys);
    AscendingUnique(UniqueSorted(ts), keys);
  }

  /** The scenario's users, in ascending order. */
  lemma FunnelUsers()
    ensures UniqueSorted(EventUsers(FunnelEvents())) == ["u1", "u2"]
  {
    var us := EventUsers(FunnelEvents());
    var keys: seq<string> := ["u1", "u2"];
    assert us == ["u1", "u1", "u1", "u1", "u2"];
    assert Less("1", "2");
    assert Less("u1", "u2");
    assert StrictlyAscending(keys);
    AscendingUnique(UniqueSorted(us), keys);
  }

  /** No type of the scenario is `user_id`, so the pivot exists; its columns. */
  lemma FunnelColumns()
    ensures Pivot(FunnelEvents()).Some?
    ensures Pivot(FunnelEvents()).value.columns == ["user_id", "cart", "purchase", "view"]
  {
    FunnelTypes();
  }

  /** The rename of the scenario's columns. */
  lemma FunnelRenamed()
    ensures Renamed(["user_id", "cart", "purchase", "view"]) == ["user_id", "carts", "purchases", "views"]
  {
  }

  /** The scenario's pivot has two rows; the first is u1's, with one cell per type. */
  lemma FunnelFirstUser()
    ensures Pivot(FunnelEvents()).Some? && |Pivot(FunnelEvents()).value.rows| == 2
    ensures Pivot(FunnelEvents()).value.rows[0].user == "u1"
    ensures |Pivot(FunnelEvents()).value.rows[0].cells| == 3
  {
    FunnelColumns();
    FunnelTypes();
    FunnelUsers();
  }

  /** u1's cell in column `j`: 1 cart, 0 purchases, 3 views. */
  lemma FunnelCell(j: nat)
    requires j < 3
    ensures Pivot(FunnelEvents()).Some? && |Pivot(FunnelEvents()).value.rows| == 2
    ensures |Pivot(FunnelEvents()).value.rows[0].cells| == 3
    ensures Pivot(FunnelEvents()).value.rows[0].cells[j] == [1, 0, 3][j]
  {
    FunnelFirstUser();
    FunnelTypes();
    var t := ["cart", "purchase", "view"][j];
    PivotCell(FunnelEvents(), 0, j);
    FunnelPairCounts("u1", "u2", t);
  }

  /** u1's whole row. */
  lemma FunnelFirstRow()
    ensures Pivot(FunnelEvents()).Some? && |Pivot(FunnelEvents()).value.rows| == 2
    ensures Pivot(FunnelEvents()).value.rows[0] == FunnelRow("u1", [1, 0, 3])
  {
    FunnelFirstUser();
    FunnelCell(0);
    FunnelCell(1);
    FunnelCell(2);
    var row := Pivot(FunnelEvents()).value.rows[0];
    assert row.cells == [1, 0, 3];
  }

  /**
   * The funnel of that scenario: the columns user_id, cart, purchase and view,
   * renamed to user_id, carts, purchases and views; u1's row comes first and holds
   * 1 cart, 0 purchases and 3 views.
   */
  lemma FunnelScenario()
    ensures Pivot(FunnelEvents()).Some?
    ensures Pivot(FunnelEvents()).value.columns == ["user_id", "cart", "purchase", "view"]
    ensures Renamed(Pivot(FunnelEvents()).value.columns) == ["user_id", "carts", "purchases", "views"]
    ensures |Pivot(FunnelEvents()).value.rows| == 2
    ensures Pivot(FunnelEvents()).value.rows[0] == FunnelRow("u1", [1, 0, 3])
  {
    FunnelColumns();
    FunnelRenamed();
    FunnelFirstRow();
  }
}
