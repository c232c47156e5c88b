/**
 * The session assigner of the silver layer (`add_sessions`). The events are
 * sorted by (user, time); each event is compared with the previous event of the
 * same user; an event starts a new session when it is the user's first or when
 * more than 30 minutes have passed since that previous event; and the sessions of
 * each user are numbered 1, 2, ... by a running count of those starts.
 *
 * The pandas code computes this with a grouped `shift(1)` and a grouped `cumsum`.
 * `RowAt` states that meaning directly (the latest earlier event of the same user,
 * the number of session starts of the user so far), for any order of the rows.
 * `AddSessions` is the single pass over the sorted events that builds each row
 * from the row above it (its user, its time and its counter), and it is proved
 * to produce exactly those rows.
 */
module SessionAssigner {
  import opened Options
  import opened Order
  import opened Events
  import opened SessionIds

  // ---------------------------------------------------------------------------
  // Sorting by (user_id, event_time)
  // ---------------------------------------------------------------------------

  /** `a` may come before `b` when sorting by user, then by time. */
  predicate EventLe(a: Event, b: Event) {
    Less(a.user, b.user) || (a.user == b.user && a.time <= b.time)
  }

  lemma EventLeTransitive(a: Event, b: Event, c: Event)
    requires EventLe(a, b) && EventLe(b, c)
    ensures EventLe(a, c)
  {
    if Less(a.user, b.user) && Less(b.user, c.user) {
      LessTransitive(a.user, b.user, c.user);
    }
  }

  lemma EventLeTotal(a: Event, b: Event)
    ensures EventLe(a, b) || EventLe(b, a)
  {
    LessTotal(a.user, b.user);
  }

  predicate SortedByUserTime(s: seq<Event>) {
    forall i, j :: 0 <= i < j < |s| ==> EventLe(s[i], s[j])
  }

  /** `x` may precede every event of `t`. */
  predicate PrecedesAll(x: Event, t: seq<Event>) {
    forall k :: 0 <= k < |t| ==> EventLe(x, t[k])
  }

  /** A bound on every element carries over to any permutation. */
  lemma PrecedesAllPermutation(x: Event, a: seq<Event>, b: seq<Event>)
    requires multiset(a) == multiset(b) && PrecedesAll(x, a)
    ensures PrecedesAll(x, b)
  {
    forall k | 0 <= k < |b| ensures EventLe(x, b[k]) {
      assert b[k] in multiset(a);
    }
  }

  lemma PrependSorted(x: Event, t: seq<Event>)
    requires SortedByUserTime(t) && PrecedesAll(x, t)
    ensures SortedByUserTime([x] + t)
  {
  }

  /** Places `e` into a sorted sequence, in front of the first event it may precede. */
  function InsertEvent(e: Event, s: seq<Event>): (r: seq<Event>)
    requires SortedByUserTime(s)
    ensures SortedByUserTime(r)
    ensures multiset(r) == multiset(s) + multiset{e}
    ensures |r| == |s| + 1
  {
    if s == [] then [e]
    else if EventLe(e, s[0]) then
      assert PrecedesAll(e, s) by {
        forall j | 0 < j < |s| ensures EventLe(e, s[j]) {
          EventLeTransitive(e, s[0], s[j]);
        }
      }
      PrependSorted(e, s);
      [e] + s
    else
      EventLeTotal(e, s[0]);
      var t := InsertEvent(e, s[1..]);
      assert PrecedesAll(s[0], s[1..] + [e]);
      PrecedesAllPermutation(s[0], s[1..] + [e], t);
      PrependSorted(s[0], t);
      assert s == [s[0]] + s[1..];
      [s[0]] + t
  }

  /** `sort_values([user_id, event_time])`: a sorted permutation of the events. */
  function SortByUserTime(s: seq<Event>): (r: seq<Event>)
    ensures SortedByUserTime(r)
    ensures multiset(r) == multiset(s)
    ensures |r| == |s|
  {
    if s == [] then []
    else
      assert s == [s[0]] + s[1..];
      InsertEvent(s[0], SortByUserTime(s[1..]))
  }

  /** Sorting events that are already sorted leaves them as they are. */
  lemma {:induction false} SortSortedIsIdentity(s: seq<Event>)
    requires SortedByUserTime(s)
    ensures SortByUserTime(s) == s
  {
    if s != [] {
      SortSortedIsIdentity(s[1..]);
      assert s == [s[0]] + s[1..];
    }
  }

  /** In sorted events the events of one user are consecutive: none comes between two of them. */
  lemma NoEarlierEventOfUser(s: seq<Event>, i: nat)
    requires SortedByUserTime(s)
    requires 0 < i < |s| && s[i - 1].user != s[i].user
    ensures forall k :: 0 <= k < i ==> s[k].user != s[i].user
  {
    forall k | 0 <= k < i - 1 ensures s[k].user != s[i].user {
      if s[k].user == s[i].user {
        assert EventLe(s[k], s[i - 1]) && EventLe(s[i - 1], s[i]);
        LessAsymmetric(s[i - 1].user, s[i].user);
      }
    }
  }

  // ---------------------------------------------------------------------------
  // What the columns mean, position by position
  // ---------------------------------------------------------------------------

  /** The latest position before `n` holding an event of `user`: the row a grouped `shift(1)` reads. */
  function PrevIndex(s: seq<Event>, user: string, n: nat): (r: Option<nat>)
    requires n <= |s|
    ensures r.Some? ==> r.value < n && s[r.value].user == user
    ensures r.Some? ==> forall k :: r.value < k < n ==> s[k].user != user
    ensures r.None? ==> forall k :: 0 <= k < n ==> s[k].user != user
  {
    if n == 0 then None
    else if s[n - 1].user == user then Some(n - 1)
    else PrevIndex(s, user, n - 1)
  }

  /** `prev_time`: the time of the same user's previous event, missing for the user's first. */
  function PrevTime(s: seq<Event>, i: nat): Option<int>
    requires i < |s|
  {
    match PrevIndex(s, s[i].user, i)
    case None => None
    case Some(j) => Some(s[j].time)
  }

  /** `gap_minutes`: the time from `prev` to `time`, in minutes. */
  function GapMinutes(time: int, prev: int): real {
    (time - prev) as real / 60.0
  }

  /** A gap of more than 30 minutes is a gap of more than 1800 whole seconds. */
  lemma GapExceedsLimit(time: int, prev: int)
    ensures GapMinutes(time, prev) > SessionGapMinutes as real <==> time - prev > SessionGapSeconds
  {
  }

  /** `new_session`: no previous event of the user, or a gap of more than 30 minutes since it. */
  predicate IsNewSession(s: seq<Event>, i: nat)
    requires i < |s|
  {
    match PrevTime(s, i)
    case None => true
    case Some(p) => GapMinutes(s[i].time, p) > SessionGapMinutes as real
  }

  /** How many of the first `n` events belong to `user` and start a session. */
  function NewSessionsOf(s: seq<Event>, user: string, n: nat): (c: nat)
    requires n <= |s|
    ensures c <= n
  {
    if n == 0 then 0
    else NewSessionsOf(s, user, n - 1) + (if s[n - 1].user == user && IsNewSession(s, n - 1) then 1 else 0)
  }

  /** `session_index`: the grouped running count of `new_session`, the current event included. */
  function SessionIndex(s: seq<Event>, i: nat): nat
    requires i < |s|
  {
    NewSessionsOf(s, s[i].user, i + 1)
  }

  /** One row of the silver events frame: the event and the columns `add_sessions` adds. */
  datatype SessionRow = SessionRow(
    event: Event,
    prevTime: Option<int>,
    gapMinutes: Option<real>,
    newSession: bool,
    sessionIndex: nat,
    sessionId: string)

  /** The row `add_sessions` produces at position `i` of the sorted events `s`. */
  function RowAt(s: seq<Event>, i: nat): SessionRow
    requires i < |s|
  {
    var prev := PrevTime(s, i);
    SessionRow(
      s[i],
      prev,
      if prev.Some? then Some(GapMinutes(s[i].time, prev.value)) else None,
      IsNewSession(s, i),
      SessionIndex(s, i),
      SessionId(s[i].user, SessionIndex(s, i)))
  }

  /** The events of a frame of rows, in row order. */
  function EventsOf(rows: seq<SessionRow>): (s: seq<Event>)
    ensures |s| == |rows|
  {
    seq(|rows|, i requires 0 <= i < |rows| => rows[i].event)
  }

  /** The frame `add_sessions` returns: the sorted events, each with its session columns. */
  function AssignSessions(events: seq<Event>): (rows: seq<SessionRow>)
    ensures |rows| == |events|
    ensures EventsOf(rows) == SortByUserTime(events)
    ensures SortedByUserTime(EventsOf(rows))
    ensures multiset(EventsOf(rows)) == multiset(events)
  {
    var s := SortByUserTime(events);
    var rows := seq(|s|, i requires 0 <= i < |s| => RowAt(s, i));
    assert EventsOf(rows) == s;
    rows
  }

  // ---------------------------------------------------------------------------
  // The single pass
  // ---------------------------------------------------------------------------

  /**
   * On sorted events the previous event of the same user, if any, is the
   * immediately preceding one, and the counter either restarts at 1 or grows by the
   * `new_session` flag: the state a single pass needs is (user, time, counter) of
   * the preceding event.
   */
  lemma SortedStep(s: seq<Event>, i: nat)
    requires SortedByUserTime(s) && i < |s|
    ensures PrevTime(s, i) == if 0 < i && s[i - 1].user == s[i].user then Some(s[i - 1].time) else None
    ensures SessionIndex(s, i) ==
      if PrevTime(s, i).None? then 1 else SessionIndex(s, i - 1) + (if IsNewSession(s, i) then 1 else 0)
  {
    if 0 < i && s[i - 1].user != s[i].user {
      NoEarlierEventOfUser(s, i);
      NoNewSessionsWithoutEvents(s, s[i].user, i);
    } else if i == 0 {
      assert NewSessionsOf(s, s[i].user, 0) == 0;
    }
  }

  lemma {:induction false} NoNewSessionsWithoutEvents(s: seq<Event>, user: string, n: nat)
    requires n <= |s|
    requires forall k :: 0 <= k < n ==> s[k].user != user
    ensures NewSessionsOf(s, user, n) == 0
  {
    if n > 0 {
      NoNewSessionsWithoutEvents(s, user, n - 1);
    }
  }

  /**
   * `add_sessions`: sort the events by (user, time), then build each row from
   * the row above it (the shifted columns and the running session counter).
   */
  method AddSessions(events: seq<Event>) returns (rows: seq<SessionRow>)
    ensures rows == AssignSessions(events)
  {
    var s := SortByUserTime(events);
    rows := [];
    for i := 0 to |s|
      invariant |rows| == i
      invariant forall k :: 0 <= k < i ==> rows[k] == RowAt(s, k)
    {
      var above: Option<SessionRow> := if i == 0 then None else Some(rows[i - 1]);
      StepIsRowAt(s, i);
      rows := rows + [NextRow(above, s[i])];
    }
  }

  /**
   * The session columns of event `e` given the row above it (`None` on the first
   * row): `prev_time` is that row's time when it holds the same user, the gap is
   * in minutes, and the counter restarts at 1 for a new user and otherwise grows
   * by one at each new session.
   */
  function NextRow(above: Option<SessionRow>, e: Event): SessionRow {
    var prev := if above.Some? && above.value.event.user == e.user then Some(above.value.event.time) else None;
    var gap := if prev.Some? then Some((e.time - prev.value) as real / 60.0) else None;
    var newSession := prev.None? || gap.value > SessionGapMinutes as real;
    var index := if prev.None? then 1 else if newSession then above.value.sessionIndex + 1 else above.value.sessionIndex;
    SessionRow(e, prev, gap, newSession, index, SessionId(e.user, index))
  }

  /** Each row of the output is `NextRow` of the row above it. */
  lemma StepIsRowAt(s: seq<Event>, i: nat)
    requires SortedByUserTime(s) && i < |s|
    ensures RowAt(s, i) == NextRow(if i == 0 then None else Some(RowAt(s, i - 1)), s[i])
  {
    SortedStep(s, i);
  }

  // ---------------------------------------------------------------------------
  // What the session columns promise
  // ---------------------------------------------------------------------------

  /**
   * On the output frame, `prev_time` is the time of the row above when it holds
   * the same user and missing otherwise, and a row starts a session exactly when
   * it is the first row, the first of its user, or more than 30 minutes (1800 s)
   * after the row above.
   */
  lemma NewSessionRule(events: seq<Event>, i: nat)
    requires i < |events|
    ensures var rows := AssignSessions(events);
      rows[i].prevTime == (if 0 < i && rows[i - 1].event.user == rows[i].event.user then Some(rows[i - 1].event.time) else None)
    ensures var rows := AssignSessions(events);
      rows[i].newSession <==>
        i == 0 || rows[i - 1].event.user != rows[i].event.user
        || rows[i].event.time - rows[i - 1].event.time > SessionGapSeconds
  {
    var rows := AssignSessions(events);
    var s := SortByUserTime(events);
    assert EventsOf(rows) == s;
    SortedStep(s, i);
    if 0 < i {
      assert rows[i - 1].event == s[i - 1] && rows[i].event == s[i];
      GapExceedsLimit(s[i].time, s[i - 1].time);
    }
  }

  /**
   * The counter restarts at 1 on each user's first row and otherwise keeps the
   * value of the row above, plus one when the row starts a session.
   */
  lemma SessionIndexRule(events: seq<Event>, i: nat)
    requires i < |events|
    ensures var rows := AssignSessions(events);
      rows[i].sessionIndex ==
        if i == 0 || rows[i - 1].event.user != rows[i].event.user then 1
        else rows[i - 1].sessionIndex + (if rows[i].newSession then 1 else 0)
    ensures var rows := AssignSessions(events);
      rows[i].sessionId == SessionId(rows[i].event.user, rows[i].sessionIndex)
  {
    var rows := AssignSessions(events);
    var s := SortByUserTime(events);
    assert EventsOf(rows) == s;
    SortedStep(s, i);
    if 0 < i {
      assert rows[i - 1].event == s[i - 1] && rows[i].event == s[i];
    }
  }

  /** Session counters are at least 1, so every id ends in a positive number, and at most the row number. */
  lemma {:induction false} SessionIndexBounds(s: seq<Event>, i: nat)
    requires SortedByUserTime(s) && i < |s|
    ensures 1 <= SessionIndex(s, i) <= i + 1
  {
    SortedStep(s, i);
    if PrevTime(s, i).Some? {
      SessionIndexBounds(s, i - 1);
    }
  }

  /** The same bound on the output frame. */
  lemma SessionIndexPositive(events: seq<Event>, i: nat)
    requires i < |events|
    ensures 1 <= AssignSessions(events)[i].sessionIndex <= i + 1
  {
    SessionIndexBounds(SortByUserTime(events), i);
  }

  /** Two consecutive events of a user at most 30 minutes apart (equal times included) share a session. */
  lemma WithinGapSameSession(events: seq<Event>, i: nat)
    requires 0 < i < |events|
    requires var rows := AssignSessions(events);
      rows[i - 1].event.user == rows[i].event.user
      && rows[i].event.time - rows[i - 1].event.time <= SessionGapSeconds
    ensures var rows := AssignSessions(events);
      !rows[i].newSession && rows[i].sessionId == rows[i - 1].sessionId
  {
    NewSessionRule(events, i);
    SessionIndexRule(events, i);
    SessionIndexRule(events, i - 1);
  }

  /** Consecutive ids differ exactly when the second row restarts or advances the counter. */
  lemma IdChange(user0: string, index0: nat, user1: string, index1: nat, newSession: bool)
    requires user0 != user1 ==> newSession && index1 == 1
    requires user0 == user1 ==> index1 == index0 + (if newSession then 1 else 0)
    ensures newSession <==> SessionId(user0, index0) != SessionId(user1, index1)
  {
    if SessionId(user0, index0) == SessionId(user1, index1) {
      SessionIdInjective(user0, index0, user1, index1);
    }
  }

  /** A row starts a session exactly when its session id differs from the row above. */
  lemma NewSessionIffIdChanges(events: seq<Event>, i: nat)
    requires i < |events|
    ensures var rows := AssignSessions(events);
      rows[i].newSession <==> (i == 0 || rows[i - 1].sessionId != rows[i].sessionId)
  {
    NewSessionRule(events, i);
    SessionIndexRule(events, i);
    if 0 < i {
      SessionIndexRule(events, i - 1);
      var r0, r1 := AssignSessions(events)[i - 1], AssignSessions(events)[i];
      IdChange(r0.event.user, r0.sessionIndex, r1.event.user, r1.sessionIndex, r1.newSession);
    }
  }

  /** Rows with the same session id belong to the same user and carry the same counter. */
  lemma SameSessionSameUser(events: seq<Event>, i: nat, j: nat)
    requires i < |events| && j < |events|
    requires AssignSessions(events)[i].sessionId == AssignSessions(events)[j].sessionId
    ensures var rows := AssignSessions(events);
      rows[i].event.user == rows[j].event.user && rows[i].sessionIndex == rows[j].sessionIndex
  {
    var rows := AssignSessions(events);
    SessionIndexRule(events, i);
    SessionIndexRule(events, j);
    SessionIdInjective(rows[i].event.user, rows[i].sessionIndex, rows[j].event.user, rows[j].sessionIndex);
  }

  /** The count of a user's session starts never decreases along the rows. */
  lemma {:induction false} NewSessionsOfMonotone(s: seq<Event>, user: string, m: nat, n: nat)
    requires m <= n <= |s|
    ensures NewSessionsOf(s, user, m) <= NewSessionsOf(s, user, n)
    decreases n
  {
    if m < n {
      NewSessionsOfMonotone(s, user, m, n - 1);
    }
  }

  /** In sorted events, an event between two events of a user belongs to that user too. */
  lemma BetweenSameUser(s: seq<Event>, i: nat, j: nat, k: nat)
    requires SortedByUserTime(s) && i <= j <= k < |s| && s[i].user == s[k].user
    ensures s[j].user == s[i].user
  {
    if i < j < k && s[j].user != s[i].user {
      assert EventLe(s[i], s[j]) && EventLe(s[j], s[k]);
      LessAsymmetric(s[i].user, s[j].user);
    }
  }

  /** On sorted events, a position between two positions of one user with one counter has that user and counter. */
  lemma BetweenSameSession(s: seq<Event>, i: nat, j: nat, k: nat)
    requires SortedByUserTime(s) && i <= j <= k < |s| && s[i].user == s[k].user
    requires SessionIndex(s, i) == SessionIndex(s, k)
    ensures s[j].user == s[i].user && SessionIndex(s, j) == SessionIndex(s, i)
  {
    BetweenSameUser(s, i, j, k);
    var u := s[i].user;
    NewSessionsOfMonotone(s, u, i + 1, j + 1);
    NewSessionsOfMonotone(s, u, j + 1, k + 1);
    assert SessionIndex(s, j) == NewSessionsOf(s, u, j + 1);
  }

  /** The rows of one session are consecutive: a row between two rows of a session belongs to it. */
  lemma SessionsContiguous(events: seq<Event>, i: nat, j: nat, k: nat)
    requires i <= j <= k < |events|
    requires AssignSessions(events)[i].sessionId == AssignSessions(events)[k].sessionId
    ensures AssignSessions(events)[j].sessionId == AssignSessions(events)[i].sessionId
  {
    var s := SortByUserTime(events);
    var ri, rj, rk := AssignSessions(events)[i], AssignSessions(events)[j], AssignSessions(events)[k];
    assert ri == RowAt(s, i) && rj == RowAt(s, j) && rk == RowAt(s, k);
    SameSessionSameUser(events, i, k);
    BetweenSameSession(s, i, j, k);
  }

  /** Assigning sessions again to the events of the output frame gives the same frame. */
  lemma AssignSessionsIdempotent(events: seq<Event>)
    ensures AssignSessions(EventsOf(AssignSessions(events))) == AssignSessions(events)
  {
    SortSortedIsIdentity(SortByUserTime(events));
  }

  /**
   * One user's events at 0 s, 600 s and 3000 s: the second is 10 minutes after the
   * first and joins its session; the third is 40 minutes after the second and opens
   * session 2.
   */
  lemma GapScenario(a: string, b: string, c: string)
    ensures var rows := AssignSessions([Event("u1", 0, a), Event("u1", 600, b), Event("u1", 3000, c)]);
      rows[0].newSession && !rows[1].newSession && rows[2].newSession
      && rows[0].sessionIndex == 1 && rows[1].sessionIndex == 1 && rows[2].sessionIndex == 2
      && rows[1].sessionId == rows[0].sessionId && rows[2].sessionId != rows[1].sessionId
  {
    var events := [Event("u1", 0, a), Event("u1", 600, b), Event("u1", 3000, c)];
    assert SortedByUserTime(events);
    SortSortedIsIdentity(events);
    var rows := AssignSessions(events);
    assert rows[0] == RowAt(events, 0) && rows[1] == RowAt(events, 1) && rows[2] == RowAt(events, 2);
    SortedStep(events, 0);
    SortedStep(events, 1);
    SortedStep(events, 2);
  }
}
