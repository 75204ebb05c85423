/** Status mapping: store log levels to span status, and the roll-up to a trace status. */
module Status {
  import opened Wrappers
  import opened Records

  /** Store log level to span status: ERROR is an error, DEFAULT and WARNING are fine, anything else (missing included) is unset. */
  function LevelToStatus(level: Option<string>): (r: StatusCode)
    ensures r == ERROR <==> level == Some("ERROR")
    ensures r == OK <==> level == Some("DEFAULT") || level == Some("WARNING")
    ensures r == UNSET <==> level != Some("ERROR") && level != Some("DEFAULT") && level != Some("WARNING")
  {
    if level == Some("ERROR") then ERROR
    else if level == Some("DEFAULT") || level == Some("WARNING") then OK
    else UNSET
  }

  /** Whether some span carries the error status. */
  function AnyError(spans: seq<Span>): (b: bool)
    ensures b <==> exists i :: 0 <= i < |spans| && spans[i].status == ERROR
  {
    if |spans| == 0 then false
    else if spans[0].status == ERROR then true
    else
      var rest := AnyError(spans[1..]);
      assert rest <==> exists i :: 1 <= i < |spans| && spans[i].status == ERROR by {
        if rest {
          var k :| 0 <= k < |spans[1..]| && spans[1..][k].status == ERROR;
          assert spans[k + 1].status == ERROR;
        }
        forall i | 1 <= i < |spans| && spans[i].status == ERROR
          ensures rest
        {
          assert spans[1..][i - 1].status == ERROR;
        }
      }
      rest
  }

  /**
    The trace status from the trace's own level and its spans' statuses: an
    ERROR level is an error; WARNING or DEFAULT is an error exactly when some
    span is; any other level is unset whatever the spans say.
   */
  function TraceStatus(level: Option<string>, spans: seq<Span>): (r: StatusCode)
    ensures level == Some("ERROR") ==> r == ERROR
    ensures level == Some("WARNING") || level == Some("DEFAULT") ==>
      r != UNSET && (r == ERROR <==> exists i :: 0 <= i < |spans| && spans[i].status == ERROR)
    ensures level != Some("ERROR") && level != Some("WARNING") && level != Some("DEFAULT") ==> r == UNSET
  {
    if level == Some("ERROR") then ERROR
    else if level == Some("WARNING") then (if AnyError(spans) then ERROR else OK)
    else if level == Some("DEFAULT") then (if AnyError(spans) then ERROR else OK)
    else UNSET
  }

  /**
    The roll-up refines the level mapping: it is unset exactly when the level
    maps to unset, it agrees with the level mapping when no span is in error,
    and an error span can only turn OK into ERROR.
   */
  lemma TraceStatusRefinesLevel(level: Option<string>, spans: seq<Span>)
    ensures TraceStatus(level, spans) == UNSET <==> LevelToStatus(level) == UNSET
    ensures !AnyError(spans) ==> TraceStatus(level, spans) == LevelToStatus(level)
    ensures TraceStatus(level, spans) != LevelToStatus(level) ==>
      LevelToStatus(level) == OK && TraceStatus(level, spans) == ERROR && AnyError(spans)
  {
  }

  /** A trace whose only span was derived from its own level gets that span's status. */
  lemma SingleSpanRollUp(level: Option<string>, s: Span)
    requires s.status == LevelToStatus(level)
    ensures TraceStatus(level, [s]) == s.status
  {
    assert AnyError([s]) <==> s.status == ERROR by {
      assert [s][0] == s;
    }
  }
}
