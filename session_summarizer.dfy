/**
 * The sessions table of the silver layer (`build_sessions_table`): the rows of
 * the sessionised events frame grouped by `session_id`, one row per session with
 * the user, the first and last event time, the number of events, the number of
 * distinct event types and the length in minutes. pandas sorts the group keys, so
 * the sessions come out in ascending order of their ids.
 */
module SessionSummarizer {
  import opened Events
  import opened Order
  import opened Tally
  import opened SessionAssigner

  /** One row of the sessions table. */
  datatype Session = Session(
    sessionId: string,
    user: string,
    start: int,
    end: int,
    eventsCount: nat,
    uniqueEventTypes: nat,
    lengthMinutes: real)

  /** The `session_id` column. */
  function Ids(rows: seq<SessionRow>): (ids: seq<string>)
    ensures |ids| == |rows|
    ensures forall i :: 0 <= i < |rows| ==> ids[i] == rows[i].sessionId
  {
    seq(|rows|, i requires 0 <= i < |rows| => rows[i].sessionId)
  }

  /** The rows of the group `id`, in row order. */
  function Members(rows: seq<SessionRow>, id: string): (m: seq<SessionRow>)
    ensures forall k :: 0 <= k < |m| ==> m[k] in rows && m[k].sessionId == id
  {
    if rows == [] then []
    else
      var rest := Members(rows[1..], id);
      assert forall i :: 1 <= i < |rows| ==> rows[i] == rows[1..][i - 1];
      if rows[0].sessionId == id then [rows[0]] + rest else rest
  }

  /** Every row carrying `id` is in the group `id`. */
  lemma {:induction false} MembersComplete(rows: seq<SessionRow>, id: string, i: nat)
    requires i < |rows| && rows[i].sessionId == id
    ensures rows[i] in Members(rows, id)
  {
    if i > 0 {
      MembersComplete(rows[1..], id, i - 1);
    }
  }

  /** A group has as many rows as its id occurs in the `session_id` column. */
  lemma {:induction false} MembersCount(rows: seq<SessionRow>, id: string)
    ensures |Members(rows, id)| == Count(Ids(rows), id)
  {
    if rows != [] {
      MembersCount(rows[1..], id);
      assert Ids(rows)[1..] == Ids(rows[1..]);
    }
  }

  /** The `event_time` values of some rows. */
  function Times(rows: seq<SessionRow>): (ts: seq<int>)
    ensures |ts| == |rows|
    ensures forall k :: 0 <= k < |rows| ==> ts[k] == rows[k].event.time
  {
    seq(|rows|, k requires 0 <= k < |rows| => rows[k].event.time)
  }

  /** The `event_type` values of some rows. */
  function Types(rows: seq<SessionRow>): (ts: seq<string>)
    ensures |ts| == |rows|
    ensures forall k :: 0 <= k < |rows| ==> ts[k] == rows[k].event.etype
  {
    seq(|rows|, k requires 0 <= k < |rows| => rows[k].event.etype)
  }

  /** The aggregate `min`. */
  function Min(ts: seq<int>): (m: int)
    requires |ts| > 0
    ensures m in ts
    ensures forall k :: 0 <= k < |ts| ==> m <= ts[k]
  {
    if |ts| == 1 then ts[0]
    else
      var m := Min(ts[1..]);
      assert forall k :: 1 <= k < |ts| ==> ts[k] == ts[1..][k - 1];
      if ts[0] <= m then ts[0] else m
  }

  /** The aggregate `max`. */
  function Max(ts: seq<int>): (m: int)
    requires |ts| > 0
    ensures m in ts
    ensures forall k :: 0 <= k < |ts| ==> ts[k] <= m
  {
    if |ts| == 1 then ts[0]
    else
      var m := Max(ts[1..]);
      assert forall k :: 1 <= k < |ts| ==> ts[k] == ts[1..][k - 1];
      if ts[0] >= m then ts[0] else m
  }

  /** `(end - start).total_seconds() / 60`. */
  function LengthMinutes(start: int, end: int): real {
    (end - start) as real / 60.0
  }

  /**
   * The row of one group: the user of its first row, the earliest and latest
   * time, its size, the number of distinct event types, and the length.
   */
  function Summarize(id: string, members: seq<SessionRow>): (r: Session)
    requires |members| > 0
    ensures r.sessionId == id && r.user == members[0].event.user
    ensures r.start in Times(members) && r.end in Times(members)
    ensures forall k :: 0 <= k < |members| ==> r.start <= members[k].event.time <= r.end
    ensures r.eventsCount == |members|
    ensures 1 <= r.uniqueEventTypes <= r.eventsCount
    ensures r.uniqueEventTypes == |Distinct(Types(members))|
    ensures r.lengthMinutes >= 0.0
    ensures r.lengthMinutes * 60.0 == (r.end - r.start) as real
    ensures r.eventsCount == 1 ==> r.start == r.end && r.lengthMinutes == 0.0
  {
    var times := Times(members);
    var types := Types(members);
    var start, end := Min(times), Max(times);
    assert types[0] in Distinct(types);
    Session(id, members[0].event.user, start, end, |members|, |Distinct(types)|, LengthMinutes(start, end))
  }

  /** The summary of the group `id`, which has at least one row. */
  function SessionOf(rows: seq<SessionRow>, id: string): (r: Session)
    requires id in Ids(rows)
    ensures r.sessionId == id
    ensures r.eventsCount == Count(Ids(rows), id) >= 1
  {
    MembersCount(rows, id);
    Summarize(id, Members(rows, id))
  }

  /** `build_sessions_table`: one summary per distinct session id, in ascending order of id. */
  function BuildSessionsTable(rows: seq<SessionRow>): (table: seq<Session>)
    ensures |table| == |UniqueSorted(Ids(rows))|
    ensures forall j :: 0 <= j < |table| ==> table[j].sessionId == UniqueSorted(Ids(rows))[j]
    ensures forall j :: 0 <= j < |table| ==> table[j].eventsCount == Count(Ids(rows), table[j].sessionId) >= 1
    ensures forall i, j :: 0 <= i < j < |table| ==> Less(table[i].sessionId, table[j].sessionId)
  {
    var ids := Ids(rows);
    var keys := UniqueSorted(ids);
    seq(|keys|, j requires 0 <= j < |keys| => SessionOf(rows, keys[j]))
  }

  /** Every row's session appears in the table. */
  lemma EverySessionListed(rows: seq<SessionRow>, i: nat)
    requires i < |rows|
    ensures exists j :: 0 <= j < |BuildSessionsTable(rows)| && BuildSessionsTable(rows)[j].sessionId == rows[i].sessionId
  {
    var keys := UniqueSorted(Ids(rows));
    assert Ids(rows)[i] in keys;
    var j :| 0 <= j < |keys| && keys[j] == Ids(rows)[i];
    assert BuildSessionsTable(rows)[j].sessionId == rows[i].sessionId;
  }

  /** The sum of the `events_count` column. */
  function TotalEvents(table: seq<Session>): nat {
    if table == [] then 0 else table[0].eventsCount + TotalEvents(table[1..])
  }

  /** Every event is counted in exactly one session: the session sizes add up to the number of rows. */
  lemma SessionSizesTotal(rows: seq<SessionRow>)
    ensures TotalEvents(BuildSessionsTable(rows)) == |rows|
  {
    var ids := Ids(rows);
    var keys := UniqueSorted(ids);
    assert NoDuplicates(keys) by {
      forall i, j | 0 <= i < j < |keys| ensures keys[i] != keys[j] {
        AscendingDistinct(keys, i, j);
      }
    }
    CountsPartition(keys, ids);
    TotalIsSumCounts(BuildSessionsTable(rows), keys, ids);
  }

  lemma {:induction false} TotalIsSumCounts(table: seq<Session>, keys: seq<string>, ids: seq<string>)
    requires |table| == |keys|
    requires forall j :: 0 <= j < |table| ==> table[j].eventsCount == Count(ids, keys[j])
    ensures TotalEvents(table) == SumCounts(keys, ids)
  {
    if table != [] {
      TotalIsSumCounts(table[1..], keys[1..], ids);
    }
  }

  /** Every row lies between the start and the end of its session, and is counted in it. */
  lemma SessionSpansItsRows(rows: seq<SessionRow>, i: nat, j: nat)
    requires i < |rows| && j < |BuildSessionsTable(rows)|
    requires BuildSessionsTable(rows)[j].sessionId == rows[i].sessionId
    ensures var r := BuildSessionsTable(rows)[j];
      r.start <= rows[i].event.time <= r.end && r.eventsCount >= 1
  {
    MembersComplete(rows, rows[i].sessionId, i);
  }

  /** On the frame `add_sessions` returns, a session's `user_id` is the user of each of its rows. */
  lemma SessionUser(events: seq<Event>, i: nat, j: nat)
    requires i < |events| && j < |BuildSessionsTable(AssignSessions(events))|
    requires BuildSessionsTable(AssignSessions(events))[j].sessionId == AssignSessions(events)[i].sessionId
    ensures BuildSessionsTable(AssignSessions(events))[j].user == AssignSessions(events)[i].event.user
  {
    var rows := AssignSessions(events);
    var id := rows[i].sessionId;
    MembersComplete(rows, id, i);
    var m := Members(rows, id);
    var b :| 0 <= b < |rows| && rows[b] == m[0];
    SameSessionSameUser(events, i, b);
  }

  /** A user with a single event has a session of one event, zero minutes long. */
  lemma SingleEventSession(e: Event)
    ensures var table := BuildSessionsTable(AssignSessions([e]));
      |table| == 1 && table[0].user == e.user && table[0].eventsCount == 1
      && table[0].start == e.time == table[0].end && table[0].lengthMinutes == 0.0
  {
    var rows := AssignSessions([e]);
    assert EventsOf(rows) == SortByUserTime([e]);
    assert multiset(EventsOf(rows)) == multiset{e};
    assert rows[0].event == e by {
      assert EventsOf(rows)[0] in multiset(EventsOf(rows));
    }
    assert Ids(rows) == [rows[0].sessionId];
    assert UniqueSorted(Ids(rows)) == [rows[0].sessionId];
    assert Members(rows, rows[0].sessionId) == [rows[0]];
  }
}
