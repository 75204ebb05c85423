/**
  Conversion of store records into canonical traces and spans: the root span
  derived from trace metadata, the span of one observation (with the
  generation usage mapped onto the gen_ai token keys), and the trace built
  from both, where observations that fail to convert are dropped and the
  metadata span is the fallback.
 */
module Convert {
  import opened Wrappers
  import opened Strings
  import opened Seqs
  import opened Records
  import opened Status

  /** The start time of a record: the clock for a missing or empty timestamp, else the rewritten text. */
  function Timestamp(ts: Option<string>): (r: TimeSource)
    ensures r == Now <==> !Truthy(ts)
    ensures Truthy(ts) ==> r == Iso(RewriteUtcSuffix(ts.value))
    ensures r.Iso? ==> !EndsWithZ(r.text)
  {
    if Truthy(ts) then Iso(RewriteUtcSuffix(ts.value)) else Now
  }

  /** The entries a metadata field contributes to `dict.update`; nothing unless it is a mapping. */
  function Entries(md: Metadata): map<string, Value> {
    if md.Dict? then md.entries else map[]
  }

  // ---------------------------------------------------------------------------
  // Root span from trace metadata
  // ---------------------------------------------------------------------------

  function TagKey(tag: string): string {
    "tag." + tag
  }

  function TagKeys(tags: seq<string>): set<string> {
    set t | t in tags :: TagKey(t)
  }

  /** Marks every tag `t` with attribute `tag.t = "true"`, left to right, over `attrs`. */
  function AddTags(attrs: map<string, Value>, tags: seq<string>): (r: map<string, Value>)
    ensures r.Keys == attrs.Keys + TagKeys(tags)
    ensures forall t :: t in tags ==> r[TagKey(t)] == Str("true")
    ensures forall k :: k in attrs && k !in TagKeys(tags) ==> r[k] == attrs[k]
    decreases |tags|
  {
    if |tags| == 0 then attrs
    else
      assert TagKeys(tags) == {TagKey(tags[0])} + TagKeys(tags[1..]) by {
        assert tags == [tags[0]] + tags[1..];
      }
      AddTags(attrs[TagKey(tags[0]) := Str("true")], tags[1..])
  }

  /**
    The attributes every metadata span starts from: the trace's name as
    service name and its id, user, session and version, each missing string
    written as empty.
   */
  function BaseTraceAttrs(item: TraceItem): (r: map<string, Value>)
    ensures r.Keys == {ServiceNameKey, "langfuse.trace.id", "langfuse.trace.user_id", "langfuse.trace.session_id", "langfuse.trace.version"}
    ensures r["langfuse.trace.id"] == Str(item.id)
    ensures r[ServiceNameKey] == Str(if item.name.Some? then item.name.value else "")
    ensures r["langfuse.trace.user_id"] == Str(if item.userId.Some? then item.userId.value else "")
    ensures r["langfuse.trace.session_id"] == Str(if item.sessionId.Some? then item.sessionId.value else "")
    ensures r["langfuse.trace.version"] == Str(if item.version.Some? then item.version.value else "")
  {
    map[
      ServiceNameKey := Str(OrElse(item.name, "")),
      "langfuse.trace.id" := Str(item.id),
      "langfuse.trace.user_id" := Str(OrElse(item.userId, "")),
      "langfuse.trace.session_id" := Str(OrElse(item.sessionId, "")),
      "langfuse.trace.version" := Str(OrElse(item.version, ""))]
  }

  /**
    The inputs on which building the metadata span raises: metadata that is
    not a mapping (`dict.update` raises), or a record without a `latency_ms`
    attribute (reading it for the span's duration raises).
   */
  predicate MetadataSpanFails(item: TraceItem) {
    item.metadata.NonMapping? || !item.hasLatencyMs
  }

  /**
    The root span built from a trace record alone. Its span id is the trace id
    and it has no parent; metadata entries override the base keys and tag
    markers are written last.
   */
  function MetadataSpan(item: TraceItem): (r: Option<Span>)
    ensures r.None? <==> MetadataSpanFails(item)
    ensures r.Some? ==> r.value.traceId == item.id && r.value.spanId == item.id && r.value.parentSpanId.None?
    ensures r.Some? ==> r.value.status == LevelToStatus(item.level)
    ensures r.Some? ==> r.value.startTime == Timestamp(item.timestamp)
    ensures r.Some? && Truthy(item.name) ==>
      r.value.operationName == item.name && r.value.serviceName == Str(item.name.value)
    ensures r.Some? && !Truthy(item.name) ==>
      r.value.operationName == Some("unknown") && r.value.serviceName == Str("unknown")
    ensures r.Some? ==>
      r.value.attributes.Keys == BaseTraceAttrs(item).Keys + Entries(item.metadata).Keys + TagKeys(item.tags)
    ensures r.Some? ==> forall t :: t in item.tags ==> r.value.attributes[TagKey(t)] == Str("true")
    ensures r.Some? ==> forall k :: k in Entries(item.metadata) && k !in TagKeys(item.tags) ==>
      r.value.attributes[k] == Entries(item.metadata)[k]
    ensures r.Some? ==> forall k :: k in BaseTraceAttrs(item) && k !in Entries(item.metadata) && k !in TagKeys(item.tags) ==>
      r.value.attributes[k] == BaseTraceAttrs(item)[k]
  {
    if MetadataSpanFails(item) then None
    else
      var withMetadata := BaseTraceAttrs(item) + Entries(item.metadata);
      Some(Span(
        traceId := item.id,
        spanId := item.id,
        parentSpanId := None,
        operationName := Some(OrElse(item.name, "unknown")),
        serviceName := Str(OrElse(item.name, "unknown")),
        startTime := Timestamp(item.timestamp),
        status := LevelToStatus(item.level),
        attributes := AddTags(withMetadata, item.tags)))
  }

  // ---------------------------------------------------------------------------
  // Span of one observation
  // ---------------------------------------------------------------------------

  /** A generation that reports usage; only these get the gen_ai attributes. */
  predicate IsGeneration(obs: Observation) {
    obs.kind == "generation" && |obs.usageDetails| > 0
  }

  /**
    The inputs on which converting an observation raises: metadata that is
    not a mapping (its `.get` raises); a generation with usage, no model and
    no metadata at all (the fallback `.get` on `None` raises); or a record
    without a `latency_ms` attribute (reading it for the duration raises).
   */
  predicate ObservationFails(obs: Observation) {
    || obs.metadata.NonMapping?
    || (IsGeneration(obs) && !Truthy(obs.model) && obs.metadata.Absent?)
    || !obs.hasLatencyMs
  }

  const ObservationIdKey: string := "langfuse.observation.id"
  const ObservationTypeKey: string := "langfuse.observation.type"
  const ObservationNameKey: string := "langfuse.observation.name"

  /**
    The attributes every observation span starts from: the identity of the
    observation, and a service name read from non-empty mapping metadata
    (`None` when it lacks the key) or empty when the metadata is falsy.
   */
  function BaseObservationAttrs(obs: Observation): (r: map<string, Value>)
    requires !obs.metadata.NonMapping?
    ensures r.Keys == {ServiceNameKey, ObservationIdKey, ObservationTypeKey, ObservationNameKey}
    ensures r[ObservationIdKey] == Str(obs.id)
    ensures r[ObservationTypeKey] == Str(obs.kind)
    ensures r[ObservationNameKey] == OptionalStr(obs.name)
    ensures obs.metadata.Dict? && |obs.metadata.entries| > 0 ==>
      r[ServiceNameKey] == (if ServiceNameKey in obs.metadata.entries then obs.metadata.entries[ServiceNameKey] else Null)
    ensures !obs.metadata.Truthy() ==> r[ServiceNameKey] == Str("")
  {
    var service := if obs.metadata.Truthy() then Lookup(Entries(obs.metadata), ServiceNameKey, Null) else Str("");
    map[
      ServiceNameKey := service,
      ObservationIdKey := Str(obs.id),
      ObservationTypeKey := Str(obs.kind),
      ObservationNameKey := OptionalStr(obs.name)]
  }

  /** A usage count under its canonical key: the number, or `None` when the store did not report it. */
  function UsageValue(usage: map<string, int>, key: string): Value {
    if key in usage then Num(usage[key]) else Null
  }

  const GenerationKeys: set<string> :=
    {GenAiSystemKey, GenAiRequestModelKey, GenAiResponseModelKey, PromptTokensKey, CompletionTokensKey, TotalTokensKey}

  /** No base observation key is a gen_ai key, so the gen_ai attributes never overwrite a base attribute. */
  lemma BaseKeysAreNotGenerationKeys()
    ensures ServiceNameKey !in GenerationKeys
    ensures ObservationIdKey !in GenerationKeys
    ensures ObservationTypeKey !in GenerationKeys
    ensures ObservationNameKey !in GenerationKeys
  {
    assert ServiceNameKey[0] == 's';
    assert ObservationIdKey[0] == 'l' && ObservationTypeKey[0] == 'l' && ObservationNameKey[0] == 'l';
    assert forall k :: k in GenerationKeys ==> k[0] == 'g';
  }

  /**
    The gen_ai attributes of a generation: the three token counts read from
    the usage under their canonical keys, the model as request and response
    model, and as system the model when it is non-empty, otherwise the
    metadata's `gen_ai.system` entry, default empty.
   */
  function GenerationAttrs(obs: Observation): (r: map<string, Value>)
    requires !ObservationFails(obs)
    ensures r.Keys == GenerationKeys
    ensures r[PromptTokensKey] == UsageValue(obs.usageDetails, "prompt_tokens")
    ensures r[CompletionTokensKey] == UsageValue(obs.usageDetails, "completion_tokens")
    ensures r[TotalTokensKey] == UsageValue(obs.usageDetails, "total_tokens")
    ensures r[GenAiRequestModelKey] == OptionalStr(obs.model)
    ensures r[GenAiResponseModelKey] == OptionalStr(obs.model)
    ensures Truthy(obs.model) ==> r[GenAiSystemKey] == Str(obs.model.value)
    ensures !Truthy(obs.model) ==> r[GenAiSystemKey] == Lookup(Entries(obs.metadata), GenAiSystemKey, Str(""))
  {
    var system := if Truthy(obs.model) then Str(obs.model.value) else Lookup(Entries(obs.metadata), GenAiSystemKey, Str(""));
    map[
      GenAiSystemKey := system,
      GenAiRequestModelKey := OptionalStr(obs.model),
      GenAiResponseModelKey := OptionalStr(obs.model),
      PromptTokensKey := UsageValue(obs.usageDetails, "prompt_tokens"),
      CompletionTokensKey := UsageValue(obs.usageDetails, "completion_tokens"),
      TotalTokensKey := UsageValue(obs.usageDetails, "total_tokens")]
  }

  /**
    The attributes of a converted observation: the base keys, overridden by
    the metadata entries, and for a generation with usage the gen_ai keys
    written last.
   */
  function ObservationAttrs(obs: Observation): (r: map<string, Value>)
    requires !ObservationFails(obs)
    ensures ServiceNameKey in r && r[ServiceNameKey] == BaseObservationAttrs(obs)[ServiceNameKey]
    ensures IsGeneration(obs) ==>
      r.Keys == BaseObservationAttrs(obs).Keys + Entries(obs.metadata).Keys + GenerationKeys
    ensures !IsGeneration(obs) ==>
      r.Keys == BaseObservationAttrs(obs).Keys + Entries(obs.metadata).Keys
    ensures forall k :: k in BaseObservationAttrs(obs) && k !in Entries(obs.metadata) ==>
      r[k] == BaseObservationAttrs(obs)[k]
    ensures forall k :: k in Entries(obs.metadata) && (k !in GenerationKeys || !IsGeneration(obs)) ==>
      r[k] == Entries(obs.metadata)[k]
    ensures IsGeneration(obs) ==> forall k :: k in GenerationKeys ==> r[k] == GenerationAttrs(obs)[k]
  {
    var base := BaseObservationAttrs(obs);
    var withMetadata := base + Entries(obs.metadata);
    assert withMetadata[ServiceNameKey] == base[ServiceNameKey] by {
      if ServiceNameKey in Entries(obs.metadata) {
        assert obs.metadata.Truthy();
      }
    }
    BaseKeysAreNotGenerationKeys();
    if IsGeneration(obs) then withMetadata + GenerationAttrs(obs) else withMetadata
  }

  /**
    The span of one observation of trace `traceId`, or `None` when the
    conversion raises. Metadata entries override the base keys; for a
    generation with usage the gen_ai keys are written last.
   */
  function ObservationSpan(traceId: string, obs: Observation): (r: Option<Span>)
    ensures r.None? <==> ObservationFails(obs)
    ensures r.Some? ==>
      && r.value.traceId == traceId
      && r.value.spanId == obs.id
      && r.value.parentSpanId == obs.parentObservationId
      && r.value.operationName == obs.name
      && r.value.status == LevelToStatus(obs.level)
      && r.value.startTime == Timestamp(obs.startTime)
    ensures r.Some? ==> ServiceNameKey in r.value.attributes && r.value.serviceName == r.value.attributes[ServiceNameKey]
    ensures r.Some? && obs.metadata.Dict? && |obs.metadata.entries| > 0 ==>
      r.value.serviceName ==
        (if ServiceNameKey in obs.metadata.entries then obs.metadata.entries[ServiceNameKey] else Null)
    ensures r.Some? && !obs.metadata.Truthy() ==> r.value.serviceName == Str("")
    ensures r.Some? && IsGeneration(obs) ==>
      r.value.attributes.Keys == BaseObservationAttrs(obs).Keys + Entries(obs.metadata).Keys + GenerationKeys
    ensures r.Some? && !IsGeneration(obs) ==>
      r.value.attributes.Keys == BaseObservationAttrs(obs).Keys + Entries(obs.metadata).Keys
    ensures r.Some? ==> forall k :: k in BaseObservationAttrs(obs) && k !in Entries(obs.metadata) ==>
      r.value.attributes[k] == BaseObservationAttrs(obs)[k]
    ensures r.Some? ==> forall k :: k in Entries(obs.metadata) && (k !in GenerationKeys || !IsGeneration(obs)) ==>
      r.value.attributes[k] == Entries(obs.metadata)[k]
    ensures r.Some? && IsGeneration(obs) ==>
      && r.value.attributes[PromptTokensKey] == UsageValue(obs.usageDetails, "prompt_tokens")
      && r.value.attributes[CompletionTokensKey] == UsageValue(obs.usageDetails, "completion_tokens")
      && r.value.attributes[TotalTokensKey] == UsageValue(obs.usageDetails, "total_tokens")
      && r.value.attributes[GenAiRequestModelKey] == OptionalStr(obs.model)
      && r.value.attributes[GenAiResponseModelKey] == OptionalStr(obs.model)
    ensures r.Some? && IsGeneration(obs) && Truthy(obs.model) ==> r.value.attributes[GenAiSystemKey] == Str(obs.model.value)
    ensures r.Some? && IsGeneration(obs) && !Truthy(obs.model) ==>
      r.value.attributes[GenAiSystemKey] == Lookup(Entries(obs.metadata), GenAiSystemKey, Str(""))
  {
    if ObservationFails(obs) then None
    else
      var attrs := ObservationAttrs(obs);
      Some(Span(
        traceId := traceId,
        spanId := obs.id,
        parentSpanId := obs.parentObservationId,
        operationName := obs.name,
        serviceName := attrs[ServiceNameKey],
        startTime := Timestamp(obs.startTime),
        status := LevelToStatus(obs.level),
        attributes := attrs))
  }

  // ---------------------------------------------------------------------------
  // Trace
  // ---------------------------------------------------------------------------

  /** Each observation's conversion, in input order. */
  function ObservationSpans(traceId: string, observations: seq<Observation>): (r: seq<Option<Span>>)
    ensures |r| == |observations|
    ensures forall i :: 0 <= i < |observations| ==> r[i] == ObservationSpan(traceId, observations[i])
  {
    seq(|observations|, i requires 0 <= i < |observations| => ObservationSpan(traceId, observations[i]))
  }

  /** The observations that convert, as spans, in input order. */
  function ConvertedObservations(traceId: string, observations: seq<Observation>): seq<Span> {
    Somes(ObservationSpans(traceId, observations))
  }

  /** The converted observations all belong to the trace, and there are none exactly when every conversion fails. */
  lemma ConvertedObservationsFacts(traceId: string, observations: seq<Observation>)
    ensures forall i :: 0 <= i < |ConvertedObservations(traceId, observations)| ==>
      ConvertedObservations(traceId, observations)[i].traceId == traceId
    ensures ConvertedObservations(traceId, observations) == [] <==>
      forall i :: 0 <= i < |observations| ==> ObservationFails(observations[i])
  {
    var all := ObservationSpans(traceId, observations);
    var converted := ConvertedObservations(traceId, observations);
    forall i | 0 <= i < |converted|
      ensures converted[i].traceId == traceId
    {
      assert Some(converted[i]) in all;
    }
    assert converted == [] <==> forall i :: 0 <= i < |all| ==> all[i].None?;
  }

  /**
    The span list of a trace: the converted observations when there are
    observations and some converts, otherwise the metadata span alone, or
    `None` when that fallback raises.
   */
  function TraceSpans(item: TraceItem, observations: seq<Observation>): (r: Option<seq<Span>>)
    ensures r.None? <==> MetadataSpanFails(item) && forall i :: 0 <= i < |observations| ==> ObservationFails(observations[i])
    ensures r.Some? ==> |r.value| >= 1 && forall i :: 0 <= i < |r.value| ==> r.value[i].traceId == item.id
    ensures (exists i :: 0 <= i < |observations| && !ObservationFails(observations[i])) ==>
      r == Some(ConvertedObservations(item.id, observations))
    ensures (forall i :: 0 <= i < |observations| ==> ObservationFails(observations[i])) ==>
      r == (if MetadataSpanFails(item) then None else Some([MetadataSpan(item).value]))
  {
    ConvertedObservationsFacts(item.id, observations);
    var converted := ConvertedObservations(item.id, observations);
    if |observations| > 0 && converted != [] then Some(converted)
    else
      match MetadataSpan(item)
      case Some(root) => Some([root])
      case None => None
  }

  /**
    The canonical trace of a trace record and its observations (empty for
    search results). The span list is never empty and every span belongs to
    the trace; the names fall back to "unknown".
   */
  function ConvertTrace(item: TraceItem, observations: seq<Observation>): (r: Option<Trace>)
    ensures r.None? <==> MetadataSpanFails(item) && forall i :: 0 <= i < |observations| ==> ObservationFails(observations[i])
    ensures r.Some? ==> r.value.traceId == item.id && |r.value.spans| >= 1
    ensures r.Some? && |observations| == 0 ==> r.value.spans == [MetadataSpan(item).value]
    ensures r.Some? ==> forall i :: 0 <= i < |r.value.spans| ==> r.value.spans[i].traceId == item.id
    ensures r.Some? ==> r.value.status == TraceStatus(item.level, r.value.spans)
    ensures r.Some? ==> r.value.startTime == Timestamp(item.timestamp)
    ensures r.Some? ==> r.value.serviceName == (if Truthy(item.name) then item.name.value else "unknown")
    ensures r.Some? ==>
      r.value.rootOperation ==
        (if Truthy(item.sessionId) then item.sessionId.value
         else if Truthy(item.name) then item.name.value
         else "unknown")
  {
    var spans := TraceSpans(item, observations);
    match spans
    case None => None
    case Some(ss) =>
      Some(Trace(
        traceId := item.id,
        spans := ss,
        startTime := Timestamp(item.timestamp),
        serviceName := OrElse(item.name, "unknown"),
        rootOperation := OrElse(item.sessionId, OrElse(item.name, "unknown")),
        status := TraceStatus(item.level, ss)))
  }

  /** With no observations, or none that converts, the trace is exactly the metadata span. */
  lemma ConvertTraceFallback(item: TraceItem, observations: seq<Observation>)
    requires forall i :: 0 <= i < |observations| ==> ObservationFails(observations[i])
    requires !MetadataSpanFails(item)
    ensures ConvertTrace(item, observations).Some?
    ensures ConvertTrace(item, observations).value.spans == [MetadataSpan(item).value]
  {
    var all := ObservationSpans(item.id, observations);
    assert forall i :: 0 <= i < |all| ==> all[i].None?;
  }

  /**
    When some observation converts, the spans are exactly the converted
    observations in input order, whatever the trace's own metadata holds.
   */
  lemma ConvertTraceObservations(item: TraceItem, observations: seq<Observation>, k: nat)
    requires k < |observations| && !ObservationFails(observations[k])
    ensures ConvertTrace(item, observations).Some?
    ensures ConvertTrace(item, observations).value.spans == ConvertedObservations(item.id, observations)
  {
    var all := ObservationSpans(item.id, observations);
    assert all[k].Some?;
  }

  /** Converting observation lists piecewise and concatenating gives the conversion of the whole list. */
  lemma ConvertedObservationsAppend(traceId: string, a: seq<Observation>, b: seq<Observation>)
    ensures ConvertedObservations(traceId, a + b) == ConvertedObservations(traceId, a) + ConvertedObservations(traceId, b)
  {
    var sa, sb, sab := ObservationSpans(traceId, a), ObservationSpans(traceId, b), ObservationSpans(traceId, a + b);
    assert sab == sa + sb by {
      forall i | 0 <= i < |sab|
        ensures sab[i] == (sa + sb)[i]
      {
        if i < |a| {
          assert (a + b)[i] == a[i];
        } else {
          assert (a + b)[i] == b[i - |a|];
        }
      }
    }
    SomesAppend(ObservationSpans(traceId, a), ObservationSpans(traceId, b));
  }

  /** A trace converted without observations has the status of its one metadata span. */
  lemma MetadataTraceStatus(item: TraceItem)
    requires ConvertTrace(item, []).Some?
    ensures ConvertTrace(item, []).value.spans == [MetadataSpan(item).value]
    ensures ConvertTrace(item, []).value.status == MetadataSpan(item).value.status
  {
    SingleSpanRollUp(item.level, MetadataSpan(item).value);
  }
}
