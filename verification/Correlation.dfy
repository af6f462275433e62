/** Which AMI event belongs to which outbound attempt: nothing but an exact channel or attempt identity. */
module Correlation {
  import opened Prelude
  import opened OutboundRecords
  import Callbacks

  /** channel_id_for: Null for what is no attempt id. */
  function ChannelIdFor(attempt: Json): Json
  {
    if IsAttemptId(attempt) then Text("axe-" + attempt.s) else Null
  }

  predicate IsChannelName(value: string)
  {
    1 <= |value| <= 96 && AllOf(value, c => IsAlphanumeric(c) || c == '.' || c == '_' || c == '-')
  }

  predicate IsAxeChannel(value: string)
  {
    |value| >= 4 && value[..4] == "axe-"
  }

  /** The channel identities that an event carries. */
  function ChannelIds(event: Event): seq<string>
  {
    (if "Uniqueid" in event then [event["Uniqueid"]] else [])
    + (if "DestUniqueid" in event then [event["DestUniqueid"]] else [])
  }

  /** A field of an event that is given and says something else. */
  predicate Contradicts(event: Event, key: string, value: Json)
  {
    key in event && Text(event[key]) != value
  }

  /** matches_dial_event */
  predicate MatchesDialEvent(event: Event, record: Record)
  {
    var attempt, channel := Field(record, "attempt_id"), Field(record, "channel_id");
    if ChannelIdFor(attempt) != channel then false
    else if Contradicts(event, "AttemptID", attempt) || Contradicts(event, "ActionID", attempt) then false
    else if ChannelIds(event) != [] then
      && (forall i :: 0 <= i < |ChannelIds(event)| ==>
            && IsChannelName(ChannelIds(event)[i])
            && (IsAxeChannel(ChannelIds(event)[i]) ==> Text(ChannelIds(event)[i]) == channel))
      && exists i :: 0 <= i < |ChannelIds(event)| && Text(ChannelIds(event)[i]) == channel
    else if "AttemptID" in event then Text(event["AttemptID"]) == attempt
    else attempt == Null
  }

  /** matches_originate_response */
  predicate MatchesOriginateResponse(event: Event, record: Record)
  {
    var attempt := Field(record, "attempt_id");
    && Get(event, "Event") == Some("OriginateResponse") && Get(event, "Response") in {Some("Success"), Some("Failure")}
    && ChannelIdFor(attempt) != Null && Field(record, "channel_id") == ChannelIdFor(attempt)
    && "ActionID" in event && Text(event["ActionID"]) == attempt
    && "Uniqueid" in event && Text(event["Uniqueid"]) == ChannelIdFor(attempt)
    && !Contradicts(event, "AccountCode", Field(record, "tenant"))
      && !Contradicts(event, "Accountcode", Field(record, "tenant"))
  }

  lemma ChannelNamesItsAttempt(a: Json, b: Json)
    requires IsAttemptId(a) && IsAttemptId(b) && ChannelIdFor(a) == ChannelIdFor(b)
    ensures a == b
  {
    assert ("axe-" + a.s)[4..] == a.s && ("axe-" + b.s)[4..] == b.s;
  }

  /** One DialEnd event matches at most one attempt. */
  lemma OneDialEventOneAttempt(event: Event, r: Record, s: Record)
    requires MatchesDialEvent(event, r) && MatchesDialEvent(event, s)
    requires IsAttemptId(Field(r, "attempt_id")) && IsAttemptId(Field(s, "attempt_id"))
    ensures Field(r, "attempt_id") == Field(s, "attempt_id")
  {
    var ids, channel := ChannelIds(event), Field(r, "channel_id");
    if ids != [] {
      var i :| 0 <= i < |ids| && Text(ids[i]) == channel;
      assert ids[i][..4] == "axe-" by {
        assert ("axe-" + Field(r, "attempt_id").s)[..4] == "axe-";
      }
      assert Text(ids[i]) == Field(s, "channel_id");
      ChannelNamesItsAttempt(Field(r, "attempt_id"), Field(s, "attempt_id"));
    }
  }

  /** One OriginateResponse matches at most one attempt. */
  lemma OneResponseOneAttempt(event: Event, r: Record, s: Record)
    requires MatchesOriginateResponse(event, r) && MatchesOriginateResponse(event, s)
    ensures Field(r, "attempt_id") == Field(s, "attempt_id") && IsAttemptId(Field(r, "attempt_id"))
  {
  }

  /** Attempts of the records that are being dialed, each valid and its own. */
  ghost predicate AttemptsAreDistinct(records: seq<Record>)
  {
    && (forall k :: 0 <= k < |records| && HasStatus(records[k], "discando") ==>
        IsAttemptId(Field(records[k], "attempt_id")))
    && (forall j, k ::
          0 <= j < k < |records| && HasStatus(records[j], "discando") && HasStatus(records[k], "discando") ==>
            Field(records[j], "attempt_id") != Field(records[k], "attempt_id"))
  }

  /** With distinct attempts, an event finds at most one record that is being dialed. */
  lemma AtMostOneInFlight(event: Event, records: seq<Record>, j: nat, k: nat)
    requires AttemptsAreDistinct(records) && j < |records| && k < |records|
    requires HasStatus(records[j], "discando") && HasStatus(records[k], "discando")
    requires ((MatchesDialEvent(event, records[j]) && MatchesDialEvent(event, records[k]))
              || (MatchesOriginateResponse(event, records[j]) && MatchesOriginateResponse(event, records[k])))
    ensures j == k
  {
    if MatchesDialEvent(event, records[j]) && MatchesDialEvent(event, records[k]) {
      OneDialEventOneAttempt(event, records[j], records[k]);
    } else {
      OneResponseOneAttempt(event, records[j], records[k]);
    }
  }

  /** The validator of the callback catalog sees to distinct attempts; that of the campaigns does not. */
  lemma CallbackAttemptsAreDistinct(printable: char -> bool, rs: Callbacks.Catalog)
    requires Callbacks.IsCatalog(printable, rs)
    ensures AttemptsAreDistinct(rs)
  {
    forall k | 0 <= k < |rs| && HasStatus(rs[k], "discando") ensures IsAttemptId(Field(rs[k], "attempt_id")) {
      assert Callbacks.IsSound(printable, rs[k]);
    }
    forall j, k | 0 <= j < k < |rs| && HasStatus(rs[j], "discando") && HasStatus(rs[k], "discando")
      ensures Field(rs[j], "attempt_id") != Field(rs[k], "attempt_id")
    {
      assert Callbacks.AreCompatible(rs[j], rs[k]);
    }
  }
}
