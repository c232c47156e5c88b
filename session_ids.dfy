/**
 * Session identifiers: `session_id` is the user id, a '-' and the decimal session
 * counter. The counter's digits contain no '-', so splitting an id at its LAST '-'
 * gives back the user and the counter, whatever characters the user id holds;
 * distinct (user, counter) pairs therefore give distinct ids.
 */
module SessionIds {
  import opened Options
  import opened Text

  /** `user_id + "-" + str(session_index)`. */
  function SessionId(user: string, index: nat): (id: string)
    ensures |id| > |user| + 1
    ensures id[..|user|] == user && id[|user|] == '-'
    ensures IsCanonicalDecimal(id[|user| + 1..])
  {
    var id := user + "-" + NatToString(index);
    assert id[|user| + 1..] == NatToString(index);
    id
  }

  /** The position of the last '-' in `s`, if there is one. */
  function LastDash(s: string): (r: Option<nat>)
    ensures r.Some? ==> r.value < |s| && s[r.value] == '-'
    ensures r.Some? ==> forall k :: r.value < k < |s| ==> s[k] != '-'
    ensures r.None? ==> forall k :: 0 <= k < |s| ==> s[k] != '-'
  {
    if s == [] then None
    else if s[|s| - 1] == '-' then Some(|s| - 1)
    else LastDash(s[..|s| - 1])
  }

  /** Splits an id at its last '-' into the user and the counter; `None` when it is not a session id. */
  function ParseSessionId(id: string): (r: Option<(string, nat)>)
  {
    match LastDash(id)
    case None => None
    case Some(k) =>
      var digits := id[k + 1..];
      if IsCanonicalDecimal(digits) then Some((id[..k], ParseDecimal(digits))) else None
  }

  /** Splitting a session id at its last '-' recovers the user and the counter. */
  lemma SessionIdRoundTrip(user: string, index: nat)
    ensures ParseSessionId(SessionId(user, index)) == Some((user, index))
  {
    var id := SessionId(user, index);
    var digits := id[|user| + 1..];
    assert forall k :: |user| < k < |id| ==> id[k] == digits[k - |user| - 1];
    assert LastDash(id) == Some(|user|);
    assert digits == NatToString(index) by {
      assert id == user + "-" + NatToString(index);
    }
    ParseNatToString(index);
  }

  /** Conversely, whatever parses as a session id is the id of what it parses to. */
  lemma ParseSessionIdSound(id: string)
    requires ParseSessionId(id).Some?
    ensures SessionId(ParseSessionId(id).value.0, ParseSessionId(id).value.1) == id
  {
    var k := LastDash(id).value;
    var digits := id[k + 1..];
    NatToStringOfParse(digits);
    assert id == id[..k] + "-" + digits;
  }

  /** Distinct (user, counter) pairs give distinct session ids. */
  lemma SessionIdInjective(user1: string, index1: nat, user2: string, index2: nat)
    requires SessionId(user1, index1) == SessionId(user2, index2)
    ensures user1 == user2 && index1 == index2
  {
    SessionIdRoundTrip(user1, index1);
    SessionIdRoundTrip(user2, index2);
  }

  /** The id of the second session of user "u1" is "u1-2". */
  lemma SessionIdExample()
    ensures SessionId("u1", 2) == "u1-2"
  {
    assert NatToString(2) == "2";
  }
}
