# Langfuse trace-store adapter, modelled in Dafny

This project models the pure translation logic of the Langfuse adapter of an
OpenTelemetry query server. The adapter turns canonical trace queries into
requests to the Langfuse store. It turns the store's trace and observation
records into canonical traces and spans.

The store client is not modelled. What it returns (trace records,
observation records) is an input sequence of plain records. Optional fields
are `Option`s. Python truthiness (`x or default`, `if x:`) is written out.
Exceptions that the adapter catches and turns into `None` are `Option`
results.

Modules, leaf first:

- `Wrappers` (wrappers.dfy): `Option` and `Result`.
- `Strings` (strings.dfy): truthiness of optional strings, `rstrip('/')`, the
  `Z` → `+00:00` timestamp rewrite, and Python's code-point order on strings.
  It also holds `SortedDistinct` (Python's `sorted(set(xs))`) and the proof
  that a set has only one strictly sorted enumeration.
- `Seqs` (seqs.dfy): order-preserving "keep the successes", "keep what a
  predicate accepts" and "concatenate" operations, each with a
  concatenation lemma.
- `Records` (records.dfy): store records (`TraceItem`, `Observation`,
  `Metadata`), canonical records (`Span`, `Trace`, `StatusCode`), queries,
  filters, store request parameters and attribute keys.
- `Status` (status.dfy): level → status mapping and the trace status roll-up.
- `Convert` (convert.dfy): metadata root span, observation span, usage
  mapping and trace assembly.
- `Query` (query.dfy): store parameters of a trace query, the split between
  native and client-side filters, and trace and span search.
- `Enumerate` (enumerate.dfy): service and operation listing.
- `Backend` (backend.dfy): credential check and URL trimming at construction.

`get_trace` is `Convert.ConvertTrace` applied to the fetched trace record and
its fetched observations. Search results are `ConvertTrace` with no
observations.

Some behaviour of the code is easy to misread; the model follows the code:

- `search_traces` does not cut its result to the query's limit. It only
  sends `min(limit, 100)` to the store. `Query.SearchRespectsLimit` states
  the bound under the assumption that the store honours that limit.
- A trace whose level is missing or not ERROR/WARNING/DEFAULT gets status
  UNSET even when a span is in error. Span errors only raise a WARNING or
  DEFAULT trace to ERROR.
- `get_trace` returns `None`, not an error, when the trace cannot be
  converted. `ConvertTrace` returns `None` exactly when the metadata fallback
  is needed and raises: the trace metadata is not a mapping, or the trace
  record has no `latency_ms` attribute.
- `list_services` looks only at the 100 most recent traces. It applies no
  time window. `get_service_operations` trusts the store's name filter and
  does not re-check names.
- `get_supported_operators` (langfuse.py:96-109) declares EQUALS, NOT_EQUALS
  and CONTAINS natively supported, but the store request carries no filter.
  A filter with one of those operators is therefore applied nowhere and has
  no effect on a trace search (`Query.NativeFilterIgnored`).

## Model

| member | source | states |
|---|---|---|
| Status.LevelToStatus | src/opentelemetry_mcp/backends/langfuse.py:534-548 | ERROR iff the level is "ERROR"; OK iff it is "DEFAULT" or "WARNING"; UNSET for every other level, a missing one included |
| Status.AnyError | src/opentelemetry_mcp/backends/langfuse.py:522-529 | true exactly when some span in the list has status ERROR |
| Status.TraceStatus | src/opentelemetry_mcp/backends/langfuse.py:508-532 | level ERROR gives ERROR whatever the spans; WARNING or DEFAULT gives ERROR iff some span is ERROR, else OK; any other level gives UNSET even with error spans |
| Status.TraceStatusRefinesLevel | src/opentelemetry_mcp/backends/langfuse.py:508-548 | the roll-up is UNSET iff the level maps to UNSET; with no error span it equals the level's own status; it differs only by raising OK to ERROR when a span is in error |
| Status.SingleSpanRollUp | src/opentelemetry_mcp/backends/langfuse.py:508-532 | a trace whose only span took its status from the trace level gets that span's status |
| Strings.TrimRight | src/opentelemetry_mcp/backends/langfuse.py:62 | the result is a prefix of the input, does not end in the stripped character, and only that character was removed |
| Backend.Configure | src/opentelemetry_mcp/backends/langfuse.py:52-63 | succeeds iff both keys are present and non-empty, otherwise fails with the credentials message; the stored URL is the given one without trailing slashes; the API key is the secret key |
| Backend.ConfigureTrimIdempotent | src/opentelemetry_mcp/backends/langfuse.py:62 | configuring again with the stored URL keeps it unchanged |
| Strings.RewriteUtcSuffix | src/opentelemetry_mcp/backends/langfuse.py:589-590 | a trailing Z becomes +00:00 and nothing else changes; the result never ends in Z |
| Strings.RewriteIdempotent | src/opentelemetry_mcp/backends/langfuse.py:589-590 | rewriting twice is the same as rewriting once |
| Strings.FormatThenRewrite | src/opentelemetry_mcp/backends/langfuse.py:559-590 | a text formatted with a Z suffix is read back with an explicit +00:00 offset |
| Convert.Timestamp | src/opentelemetry_mcp/backends/langfuse.py:578-591 | a missing or empty timestamp falls back to the clock; otherwise the parser receives the given text with a trailing Z rewritten to +00:00, so it never ends in Z |
| Convert.AddTags | src/opentelemetry_mcp/backends/langfuse.py:430-433 | every tag t gets attribute tag.t = "true"; no other key is added; keys that are not tag keys keep their values |
| Convert.BaseTraceAttrs | src/opentelemetry_mcp/backends/langfuse.py:418-424 | exactly the service-name key and the trace id, user, session and version keys; each carries the record's value, a missing one as "" |
| Convert.MetadataSpan | src/opentelemetry_mcp/backends/langfuse.py:408-448 | no span iff the metadata is not a mapping or the record has no latency_ms; span id equals trace id and there is no parent; status comes from the trace level; the start time is the parsed trace timestamp; names default to "unknown"; the key set is base keys, metadata keys and tag keys; tag keys are "true"; metadata overrides base keys |
| Convert.BaseObservationAttrs | src/opentelemetry_mcp/backends/langfuse.py:466-471 | exactly the service-name key and the observation id, type and name keys; id, type and name carry the observation's values; the service name is the metadata's entry (None if it has none) for non-empty mapping metadata and "" for falsy metadata |
| Convert.GenerationAttrs | src/opentelemetry_mcp/backends/langfuse.py:477-487 | the six gen_ai keys: the three token counts read from usage under their canonical keys, request and response model from the model, and the system from a non-empty model, otherwise the metadata's gen_ai.system entry, default "" |
| Convert.ObservationAttrs | src/opentelemetry_mcp/backends/langfuse.py:466-487 | the key set is base keys and metadata keys, plus the gen_ai keys for generations with usage; metadata overrides base values, gen_ai values override metadata; the service-name entry is the base one |
| Convert.ObservationSpan | src/opentelemetry_mcp/backends/langfuse.py:450-506 | no span exactly on the inputs where conversion raises (non-mapping metadata, a model-less generation with usage and no metadata, no latency_ms); trace, span and parent ids, name, status and start time are carried over; the service name is the metadata's service.name (None if missing) for non-empty mapping metadata and "" for falsy metadata; the key set is base keys and metadata keys, plus the six gen_ai keys for generations with usage; base values survive unless metadata overrides them, metadata values unless a gen_ai key does; generations carry their token counts and model, and as system the model or the metadata's gen_ai.system |
| Convert.ConvertTrace | src/opentelemetry_mcp/backends/langfuse.py:346-406 | no trace iff the metadata fallback is needed and raises (non-mapping metadata or no latency_ms); the span list is never empty, and with no observations it is the one metadata span; every span belongs to the trace; the status is the roll-up of the spans; the start time is the parsed trace timestamp; names fall back to session id, trace name, then "unknown" |
| Convert.TraceSpans | src/opentelemetry_mcp/backends/langfuse.py:361-379 | when some observation converts, the span list is exactly the converted observations; when none does (or there are none), it is the metadata span alone, or nothing when that span cannot be built; so there is no list iff the metadata span and every observation fail, and a list is never empty and holds only spans of the trace |
| Convert.ConvertTraceFallback | src/opentelemetry_mcp/backends/langfuse.py:361-379 | with no observations, or every observation failing, the span list is exactly the metadata span |
| Convert.ConvertTraceObservations | src/opentelemetry_mcp/backends/langfuse.py:366-376 | when some observation converts, the span list is exactly the converted observations in input order, whatever the trace metadata holds |
| Convert.ConvertedObservationsAppend | src/opentelemetry_mcp/backends/langfuse.py:367-375 | converting two observation lists and concatenating equals converting their concatenation, so input order is kept |
| Convert.MetadataTraceStatus | src/opentelemetry_mcp/backends/langfuse.py:361-382 | a trace converted without observations has the metadata span as its only span and takes that span's status |
| Seqs.Somes | src/opentelemetry_mcp/backends/langfuse.py:167-171 | keeps exactly the successful conversions and is empty iff every conversion failed |
| Seqs.SomesAppend | src/opentelemetry_mcp/backends/langfuse.py:368-375 | dropping failures commutes with concatenation |
| Seqs.Select | src/opentelemetry_mcp/backends/langfuse.py:176 | keeps exactly the elements the predicate accepts, and everything when all are accepted |
| Seqs.SelectAppend | src/opentelemetry_mcp/backends/langfuse.py:176 | selection commutes with concatenation |
| Seqs.Flatten | src/opentelemetry_mcp/backends/langfuse.py:217-219 | an element is in the result iff it is in some inner list; a single inner list is returned as is; with non-empty inner lists the result is at least as long as the outer list |
| Seqs.FlattenAppend | src/opentelemetry_mcp/backends/langfuse.py:217-219 | flattening commutes with concatenation, so with the single-list case the result is the inner lists' elements in order, each as often as it occurs |
| Query.NativeParamsFor | src/opentelemetry_mcp/backends/langfuse.py:125-154 | the limit is min(limit, 100); the lower time bound is the start time or now minus one day; the upper bound is present iff an end time is given; tag is the first tag key iff there are tags; name and session id are passed iff non-empty |
| Query.ClientFilters | src/opentelemetry_mcp/backends/langfuse.py:174-176 | holds exactly the filters whose operator is not EQUALS, NOT_EQUALS or CONTAINS |
| Query.ClientFiltersAppend | src/opentelemetry_mcp/backends/langfuse.py:176 | the client-side filters keep their original order |
| Query.FilterSplitPartition | src/opentelemetry_mcp/backends/langfuse.py:96-109 | every filter is either declared natively supported or re-applied client-side, exactly once |
| Query.NativeFilterIgnored | src/opentelemetry_mcp/backends/langfuse.py:126-183 | adding a filter with a natively supported operator leaves a trace search unchanged, since the store request carries no filter and the filter engine only sees the other filters |
| Query.SearchSeesOnlyClientFilters | src/opentelemetry_mcp/backends/langfuse.py:126-183 | a trace search gives the same result as the search with only its client-side filters |
| Query.ConvertedTraces | src/opentelemetry_mcp/backends/langfuse.py:166-171 | exactly the response records that convert, each as a trace with only its metadata span |
| Query.SearchTraces | src/opentelemetry_mcp/backends/langfuse.py:156-185 | results are conversions of response records, each with one span whose id is the trace id; with no client-side filter the result is all conversions; otherwise exactly the conversions the filter engine accepts; response order is kept (`Query.SearchTracesAppend`) |
| Query.SearchTracesAppend | src/opentelemetry_mcp/backends/langfuse.py:166-183 | a trace search keeps the response order: the search of a concatenated response is the concatenation of the parts' searches |
| Query.SearchRespectsLimit | src/opentelemetry_mcp/backends/langfuse.py:145-146 | if the store returns no more traces than the limit sent, the search returns at most the caller's limit and at most 100 |
| Query.SpanSearchQuery | src/opentelemetry_mcp/backends/langfuse.py:206-214 | the trace query behind a span search copies the span query's service, operation, time bounds and limit, and has no tags |
| Query.SpanSearchParams | src/opentelemetry_mcp/backends/langfuse.py:206-214 | the trace query behind a span search sends no tag, a limit no larger than the span query's, and the one-day default window |
| Query.SearchSpans | src/opentelemetry_mcp/backends/langfuse.py:216-226 | results are spans of the searched traces; with no filter it is every span in order; otherwise exactly the spans the filter engine accepts; trace and span order is kept (`Query.SearchSpansAppend`, `Query.SearchSpansOneTrace`) |
| Query.SearchSpansAppend | src/opentelemetry_mcp/backends/langfuse.py:216-226 | a span search keeps trace order: the search over concatenated trace lists is the concatenation of the two searches; with `Query.SearchSpansOneTrace` the span order inside each trace is kept too |
| Query.SearchSpansOneTrace | src/opentelemetry_mcp/backends/langfuse.py:216-226 | within one trace a span search returns the trace's spans in their own order, all of them without filters and otherwise the order-preserving selection of those the filter engine accepts |
| Query.SpanSearchSeesOnlyMetadataSpans | src/opentelemetry_mcp/backends/langfuse.py:206-226 | a span search returns only root spans (span id equals trace id, no parent), each the metadata span of a record of the store's response; observation spans never appear |
| Strings.SortedDistinct | src/opentelemetry_mcp/backends/langfuse.py:279 | the result is strictly sorted in code-point order and holds exactly the input's values |
| Strings.StrictlySortedUnique | src/opentelemetry_mcp/backends/langfuse.py:279 | two strictly sorted sequences with the same values are equal |
| Strings.StrictlySortedDistinct | src/opentelemetry_mcp/backends/langfuse.py:274-279 | a strictly sorted sequence has no duplicates |
| Enumerate.PresentValues | src/opentelemetry_mcp/backends/langfuse.py:274-277 | a value is kept iff some entry holds it as a non-empty string |
| Enumerate.ListServices | src/opentelemetry_mcp/backends/langfuse.py:257-279 | strictly sorted, and a name is listed iff some trace has it as a non-empty name |
| Enumerate.ListServicesIsSortedSet | src/opentelemetry_mcp/backends/langfuse.py:274-279 | the service list is the only strictly sorted sequence of the non-empty trace names |
| Enumerate.GetServiceOperations | src/opentelemetry_mcp/backends/langfuse.py:285-314 | strictly sorted, and an id is listed iff some returned trace has it as a non-empty session id |
| Enumerate.GetServiceOperationsIsSortedSet | src/opentelemetry_mcp/backends/langfuse.py:309-314 | the operation list is the only strictly sorted sequence of the non-empty session ids |
| Enumerate.EnumerationsDistinct | src/opentelemetry_mcp/backends/langfuse.py:274-314 | neither list repeats a value |

## Left out

- Store client calls (`api.trace.list`, `api.trace.get`, `api.observations.get_many`), async/await and logging: their results are input sequences; a failing call is re-raised and has no pure counterpart.
- `health_check` and `close`: a network round trip and a no-op.
- `_create_headers` and the `langfuse_client` property: constant headers and an accessor.
- `get_supported_operators`: kept as the constant `Query.SupportedOperators`.
- `datetime.now()` and `datetime.fromisoformat`: a parsed start time is `TimeSource.Now` (the clock fallback) or the ISO text given to the parser; the parser's own failure, which also falls back to the clock, is not modelled. The query default window reads the clock as the parameter `now` of `Query.NativeParamsFor`.
- A timestamp that is already a `datetime` is returned unchanged (langfuse.py:582-583): timestamps are text in the model.
- `_format_timestamp`: `datetime.isoformat` is not modelled; `Strings.FormatThenRewrite` covers the `Z` suffix it adds.
- Latency and duration values (`latency_ms`, `latency * 1000`, `float(...)`): floating-point arithmetic on values the model does not carry. Only whether a record has a `latency_ms` attribute is modelled, because reading a missing one raises.
- `FilterEngine.apply_filters` and `TraceQuery.get_all_filters` live in files that are not part of this model: the engine is the predicate parameter `matches`, and the filter list is a parameter.
- `FilterOperator` lives in a file that is not part of this model: operators other than EQUALS, NOT_EQUALS and CONTAINS are `OtherOperator(name)`.
- Attribute and metadata values are limited to strings, integers and `None`. Booleans, floats, lists and nested mappings in metadata (copied through by `update` at langfuse.py:428 and :475), and usage counts that are `None` or floats, are not represented; values are only copied, so no contract depends on their kind.
- Metadata is `None`, a mapping, or a value on which both `.get` and `dict.update` raise. A truthy non-mapping that `dict.update` accepts, such as a list of key/value pairs, cannot be represented: for a trace it would add its pairs (langfuse.py:428), and for an observation `.get` would raise (langfuse.py:467).
- `SpanAttributes`, `SpanData` and `TraceData` live in files that are not part of this model: they are plain records, and an attribute bag is a map. The constants `Service.NAME` and `GenAI.*` are taken as `service.name`, `gen_ai.system`, `gen_ai.request.model` and `gen_ai.response.model`.
- Convert.ObservationSpan: fails only on the raising paths visible in the adapter (non-mapping metadata, a model-less generation with usage and no metadata, a record without `latency_ms`). Validation errors that `SpanAttributes` or `SpanData` may raise are not modelled.
- Convert.ConvertTrace: fails only when the metadata fallback raises on non-mapping metadata or a missing `latency_ms`. Validation errors in `TraceData` are not modelled.
- test_langfuse_backend.py: a live-credential script that prints results.
- src/opentelemetry_mcp/backends/__init__.py: re-exports only.
