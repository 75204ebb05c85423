/**
  The records the Langfuse adapter reads from the store and the canonical
  trace/span records it produces, plus the query shapes it translates.
 */
module Records {
  import opened Wrappers

  /** A scalar attribute or metadata value; `Null` is Python's `None`. */
  datatype Value = Null | Str(s: string) | Num(n: int)

  /** `Str` of a present string, `Null` of a missing one. */
  function OptionalStr(s: Option<string>): Value {
    match s
    case Some(v) => Str(v)
    case None => Null
  }

  /** Looks `key` up in an attribute or metadata map, as Python's `dict.get(key, default)`. */
  function Lookup(m: map<string, Value>, key: string, default: Value): Value {
    if key in m then m[key] else default
  }

  /**
    The free-form `metadata` field of a store record. `Absent` is `None`;
    `Dict` is a mapping (falsy when empty); `NonMapping` is a truthy value
    that is not a mapping, such as a non-empty string or a number, on which
    both `.get` and `dict.update` raise.
   */
  datatype Metadata = Absent | Dict(entries: map<string, Value>) | NonMapping {
    /** Python truthiness of the field: `None` and an empty mapping are falsy. */
    predicate Truthy() {
      NonMapping? || (Dict? && |entries| > 0)
    }
  }

  /**
    A trace as the store lists it. `None` tags and an empty tag list behave
    alike, so both are `[]`. `hasLatencyMs` says whether the record has a
    `latency_ms` attribute at all (its value is not modelled); records of some
    client versions lack it.
   */
  datatype TraceItem = TraceItem(
    id: string,
    name: Option<string>,
    userId: Option<string>,
    sessionId: Option<string>,
    version: Option<string>,
    metadata: Metadata,
    tags: seq<string>,
    level: Option<string>,
    timestamp: Option<string>,
    hasLatencyMs: bool)

  /**
    An observation (the store's word for a span). `kind` is the observation
    type, such as "generation". `None` usage details and an empty mapping
    behave alike, so both are the empty map. `hasLatencyMs` says whether the
    record has a `latency_ms` attribute at all.
   */
  datatype Observation = Observation(
    id: string,
    kind: string,
    name: Option<string>,
    metadata: Metadata,
    parentObservationId: Option<string>,
    level: Option<string>,
    model: Option<string>,
    usageDetails: map<string, int>,
    startTime: Option<string>,
    hasLatencyMs: bool)

  /** The canonical span status. */
  datatype StatusCode = OK | ERROR | UNSET

  /**
    Where a start time comes from: `Now` is the clock fallback taken for a
    missing or empty timestamp; `Iso(text)` is the text handed to the ISO
    parser after the `Z` suffix rewrite.
   */
  datatype TimeSource = Now | Iso(text: string)

  /** A canonical span. `serviceName` is whatever the attribute map holds under the service-name key. */
  datatype Span = Span(
    traceId: string,
    spanId: string,
    parentSpanId: Option<string>,
    operationName: Option<string>,
    serviceName: Value,
    startTime: TimeSource,
    status: StatusCode,
    attributes: map<string, Value>)

  /** A canonical trace. */
  datatype Trace = Trace(
    traceId: string,
    spans: seq<Span>,
    startTime: TimeSource,
    serviceName: string,
    rootOperation: string,
    status: StatusCode)

  /** Filter operators. The adapter only distinguishes the three it declares natively supported from all others. */
  datatype Operator = Equals | NotEquals | Contains | OtherOperator(name: string)

  datatype Filter = Filter(field: string, operator: Operator, value: Value)

  /** Instants, in microseconds on the local clock. */
  type Instant = int

  const OneDay: Instant := 86_400_000_000

  /** A trace query. `tags` lists the tag mapping's entries in insertion order. */
  datatype TraceQuery = TraceQuery(
    serviceName: Option<string>,
    operationName: Option<string>,
    startTime: Option<Instant>,
    endTime: Option<Instant>,
    limit: int,
    tags: seq<(string, string)>)

  datatype SpanQuery = SpanQuery(
    serviceName: Option<string>,
    operationName: Option<string>,
    startTime: Option<Instant>,
    endTime: Option<Instant>,
    limit: int)

  /** The keyword arguments of the store's trace-list request; `None` means the argument is not passed. */
  datatype NativeParams = NativeParams(
    name: Option<string>,
    sessionId: Option<string>,
    fromTimestamp: Instant,
    toTimestamp: Option<Instant>,
    limit: int,
    tag: Option<string>)

  /** The most traces one list request to the store returns. */
  const StorePageLimit: int := 100

  // Attribute keys.
  const ServiceNameKey: string := "service.name"
  const GenAiSystemKey: string := "gen_ai.system"
  const GenAiRequestModelKey: string := "gen_ai.request.model"
  const GenAiResponseModelKey: string := "gen_ai.response.model"
  const PromptTokensKey: string := "gen_ai.usage.prompt_tokens"
  const CompletionTokensKey: string := "gen_ai.usage.completion_tokens"
  const TotalTokensKey: string := "gen_ai.usage.total_tokens"
}
