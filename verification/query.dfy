/**
  Trace and span search: the translation of a canonical query into the
  store's list parameters, the split between filters declared natively
  supported and filters re-applied in memory, and the assembly of search
  results. The list parameters carry no filter at all, so a filter whose
  operator is declared natively supported is applied nowhere.
  The filter engine itself is a parameter `matches`: a record passes when
  `matches(record, filters)` holds.
 */
module Query {
  import opened Wrappers
  import opened Strings
  import opened Seqs
  import opened Records
  import opened Convert

  /** The list parameters sent to the store for a trace query, with `now` the clock reading. */
  function NativeParamsFor(q: TraceQuery, now: Instant): (p: NativeParams)
    ensures p.limit <= StorePageLimit && p.limit <= q.limit
    ensures p.limit == q.limit || p.limit == StorePageLimit
    ensures q.startTime.Some? ==> p.fromTimestamp == q.startTime.value
    ensures q.startTime.None? ==> p.fromTimestamp == now - OneDay
    ensures p.toTimestamp.Some? <==> q.endTime.Some?
    ensures p.toTimestamp.Some? ==> p.toTimestamp == q.endTime
    ensures p.tag.Some? <==> |q.tags| > 0
    ensures p.tag.Some? ==> p.tag.value == q.tags[0].0
    ensures p.name.Some? <==> Truthy(q.serviceName)
    ensures p.name.Some? ==> p.name == q.serviceName
    ensures p.sessionId.Some? <==> Truthy(q.operationName)
    ensures p.sessionId.Some? ==> p.sessionId == q.operationName
  {
    NativeParams(
      name := if Truthy(q.serviceName) then q.serviceName else None,
      sessionId := if Truthy(q.operationName) then q.operationName else None,
      fromTimestamp := q.startTime.GetOr(now - OneDay),
      toTimestamp := q.endTime,
      limit := if q.limit < StorePageLimit then q.limit else StorePageLimit,
      tag := if |q.tags| > 0 then Some(q.tags[0].0) else None)
  }

  /** The operators the adapter declares natively supported; nothing in the list parameters applies them. */
  const SupportedOperators: set<Operator> := {Equals, NotEquals, Contains}

  predicate NativelySupported(f: Filter) {
    f.operator in SupportedOperators
  }

  /** The filters re-applied in memory: those whose operator the store does not support, in order. */
  function ClientFilters(filters: seq<Filter>): (r: seq<Filter>)
    ensures forall f :: f in r ==> f in filters && f.operator !in SupportedOperators
    ensures forall i :: 0 <= i < |filters| && filters[i].operator !in SupportedOperators ==> filters[i] in r
  {
    Select(filters, f => !NativelySupported(f))
  }

  /** The filters with a natively supported operator: neither sent to the store nor re-applied in memory. */
  function NativeFilters(filters: seq<Filter>): seq<Filter> {
    Select(filters, NativelySupported)
  }

  /** The split keeps the input order: splitting a concatenation splits each part. */
  lemma ClientFiltersAppend(a: seq<Filter>, b: seq<Filter>)
    ensures ClientFilters(a + b) == ClientFilters(a) + ClientFilters(b)
  {
    SelectAppend(a, b, f => !NativelySupported(f));
  }

  /** Every filter lands on exactly one side of the split. */
  lemma FilterSplitPartition(filters: seq<Filter>)
    ensures multiset(ClientFilters(filters)) + multiset(NativeFilters(filters)) == multiset(filters)
  {
    SelectPartition(filters, f => !NativelySupported(f), NativelySupported);
  }

  /**
    Appending a filter whose operator is declared natively supported leaves
    a trace search unchanged: the filter reaches neither the store nor the
    filter engine.
   */
  lemma NativeFilterIgnored(items: seq<TraceItem>, filters: seq<Filter>, f: Filter, matches: (Trace, seq<Filter>) -> bool)
    requires NativelySupported(f)
    ensures SearchTraces(items, filters + [f], matches) == SearchTraces(items, filters, matches)
  {
    assert ClientFilters([f]) == [];
    ClientFiltersAppend(filters, [f]);
    assert ClientFilters(filters + [f]) == ClientFilters(filters);
  }

  /** A trace search depends only on the filters re-applied in memory. */
  lemma SearchSeesOnlyClientFilters(items: seq<TraceItem>, filters: seq<Filter>, matches: (Trace, seq<Filter>) -> bool)
    ensures SearchTraces(items, filters, matches) == SearchTraces(items, ClientFilters(filters), matches)
  {
    var client := ClientFilters(filters);
    assert forall i :: 0 <= i < |client| ==> !NativelySupported(client[i]) by {
      forall i | 0 <= i < |client|
        ensures !NativelySupported(client[i])
      {
        assert client[i] in client;
      }
    }
  }

  /** The traces of a search response, converted without observations; failed conversions are dropped. */
  function SearchConversions(items: seq<TraceItem>): (r: seq<Option<Trace>>)
    ensures |r| == |items|
    ensures forall i :: 0 <= i < |items| ==> r[i] == ConvertTrace(items[i], [])
  {
    seq(|items|, i requires 0 <= i < |items| => ConvertTrace(items[i], []))
  }

  /** The traces of a search response that convert, in response order; each has only its metadata span. */
  function ConvertedTraces(items: seq<TraceItem>): (r: seq<Trace>)
    ensures |r| <= |items|
    ensures forall t :: t in r ==> exists i :: 0 <= i < |items| && ConvertTrace(items[i], []) == Some(t)
    ensures forall i :: 0 <= i < |items| && ConvertTrace(items[i], []).Some? ==> ConvertTrace(items[i], []).value in r
    ensures forall t :: t in r ==> |t.spans| == 1 && t.spans[0].spanId == t.traceId
  {
    var all := SearchConversions(items);
    var r := Somes(all);
    forall t | t in r
      ensures exists i :: 0 <= i < |items| && ConvertTrace(items[i], []) == Some(t)
      ensures |t.spans| == 1 && t.spans[0].spanId == t.traceId
    {
      var i :| 0 <= i < |all| && all[i] == Some(t);
      ConvertedAloneIsMetadataSpan(items[i]);
    }
    r
  }

  /**
    The result of a trace search given the store's response `items` and the
    query's filters: the converted traces, narrowed by the filter engine only
    when some filter has an operator the store does not support. Each result
    carries just its metadata span.
   */
  function SearchTraces(items: seq<TraceItem>, filters: seq<Filter>, matches: (Trace, seq<Filter>) -> bool): (r: seq<Trace>)
    ensures |r| <= |items|
    ensures forall t :: t in r ==> exists i :: 0 <= i < |items| && ConvertTrace(items[i], []) == Some(t)
    ensures forall t :: t in r ==> |t.spans| == 1 && t.spans[0].spanId == t.traceId
    ensures ClientFilters(filters) == [] ==> r == ConvertedTraces(items)
    ensures forall t :: t in r && ClientFilters(filters) != [] ==> matches(t, ClientFilters(filters))
    ensures forall i :: 0 <= i < |items| && ConvertTrace(items[i], []).Some? ==>
      (ClientFilters(filters) == [] || matches(ConvertTrace(items[i], []).value, ClientFilters(filters)) ==>
         ConvertTrace(items[i], []).value in r)
  {
    var converted := ConvertedTraces(items);
    var client := ClientFilters(filters);
    if client == [] then converted
    else Select(converted, t => matches(t, client))
  }

  /**
    When the store honours the limit it was sent, a search never returns more
    traces than the caller asked for.
   */
  lemma SearchRespectsLimit(q: TraceQuery, now: Instant, items: seq<TraceItem>, filters: seq<Filter>, matches: (Trace, seq<Filter>) -> bool)
    requires |items| <= NativeParamsFor(q, now).limit
    ensures |SearchTraces(items, filters, matches)| <= q.limit
    ensures |SearchTraces(items, filters, matches)| <= StorePageLimit
  {
  }

  /** The trace query a span search issues: the span query's fields, without tags. */
  function SpanSearchQuery(sq: SpanQuery): (q: TraceQuery)
    ensures q.tags == []
    ensures q.serviceName == sq.serviceName && q.operationName == sq.operationName
    ensures q.startTime == sq.startTime && q.endTime == sq.endTime && q.limit == sq.limit
  {
    TraceQuery(sq.serviceName, sq.operationName, sq.startTime, sq.endTime, sq.limit, [])
  }

  /** A span search sends no tag to the store and the same capped limit as its trace query would. */
  lemma SpanSearchParams(sq: SpanQuery, now: Instant)
    ensures NativeParamsFor(SpanSearchQuery(sq), now).tag.None?
    ensures NativeParamsFor(SpanSearchQuery(sq), now).limit <= sq.limit
    ensures sq.startTime.None? ==> NativeParamsFor(SpanSearchQuery(sq), now).fromTimestamp == now - OneDay
  {
  }

  /** The spans of a trace list, trace by trace. */
  function SpanLists(traces: seq<Trace>): (r: seq<seq<Span>>)
    ensures |r| == |traces|
    ensures forall i :: 0 <= i < |traces| ==> r[i] == traces[i].spans
  {
    seq(|traces|, i requires 0 <= i < |traces| => traces[i].spans)
  }

  /** All spans of `traces`, trace by trace, in order. */
  function AllSpans(traces: seq<Trace>): seq<Span> {
    Flatten(SpanLists(traces))
  }

  /**
    The result of a span search given the traces its trace search returned:
    all their spans, narrowed by the filter engine when the span query has
    any filter at all.
   */
  function SearchSpans(traces: seq<Trace>, filters: seq<Filter>, matches: (Span, seq<Filter>) -> bool): (r: seq<Span>)
    ensures forall s :: s in r ==> exists i :: 0 <= i < |traces| && s in traces[i].spans
    ensures forall s :: s in r && filters != [] ==> matches(s, filters)
    ensures forall i, s :: 0 <= i < |traces| && s in traces[i].spans && (filters == [] || matches(s, filters)) ==> s in r
    ensures filters == [] ==> r == AllSpans(traces)
  {
    var nested := SpanLists(traces);
    var all := Flatten(nested);
    assert forall i, s :: 0 <= i < |traces| && s in traces[i].spans ==> s in all by {
      forall i, s | 0 <= i < |traces| && s in traces[i].spans
        ensures s in all
      {
        assert s in nested[i];
      }
    }
    if filters == [] then all
    else Select(all, s => matches(s, filters))
  }

  /** A record converted without observations yields a trace made of its metadata span alone. */
  lemma ConvertedAloneIsMetadataSpan(item: TraceItem)
    ensures ConvertTrace(item, []).Some? ==>
      && MetadataSpan(item).Some?
      && ConvertTrace(item, []).value.spans == [MetadataSpan(item).value]
      && |ConvertTrace(item, []).value.spans| == 1
      && ConvertTrace(item, []).value.spans[0].spanId == ConvertTrace(item, []).value.traceId
  {
    if ConvertTrace(item, []).Some? {
      assert ConvertTrace(item, []).value.spans == [MetadataSpan(item).value];
    }
  }

  /** The metadata span of each record, or `None` where it cannot be built. */
  function MetadataSpans(items: seq<TraceItem>): (r: seq<Option<Span>>)
    ensures |r| == |items|
    ensures forall i :: 0 <= i < |items| ==> r[i] == MetadataSpan(items[i])
  {
    seq(|items|, i requires 0 <= i < |items| => MetadataSpan(items[i]))
  }

  /** Each trace of `traces` consists of exactly one of the spans present in `roots`. */
  predicate SingleSpanFrom(roots: seq<Option<Span>>, traces: seq<Trace>) {
    forall j :: 0 <= j < |traces| ==>
      exists k :: 0 <= k < |roots| && roots[k].Some? && traces[j].spans == [roots[k].value]
  }

  /** A span search over traces of one span each returns only those spans. */
  lemma SpansOfSingleSpanTraces(
    roots: seq<Option<Span>>, traces: seq<Trace>, spanFilters: seq<Filter>, spanMatches: (Span, seq<Filter>) -> bool)
    requires SingleSpanFrom(roots, traces)
    ensures forall s :: s in SearchSpans(traces, spanFilters, spanMatches) ==>
      exists k :: 0 <= k < |roots| && roots[k] == Some(s)
  {
    forall s | s in SearchSpans(traces, spanFilters, spanMatches)
      ensures exists k :: 0 <= k < |roots| && roots[k] == Some(s)
    {
      var j :| 0 <= j < |traces| && s in traces[j].spans;
      var k :| 0 <= k < |roots| && roots[k].Some? && traces[j].spans == [roots[k].value];
      assert roots[k] == Some(s);
    }
  }

  /** Each trace a search returns consists of the metadata span of one record of the response. */
  lemma SearchedTracesSingleSpan(items: seq<TraceItem>, filters: seq<Filter>, matches: (Trace, seq<Filter>) -> bool)
    ensures SingleSpanFrom(MetadataSpans(items), SearchTraces(items, filters, matches))
  {
    var traces := SearchTraces(items, filters, matches);
    var roots := MetadataSpans(items);
    forall j | 0 <= j < |traces|
      ensures exists k :: 0 <= k < |roots| && roots[k].Some? && traces[j].spans == [roots[k].value]
    {
      assert traces[j] in traces;
      var i :| 0 <= i < |items| && ConvertTrace(items[i], []) == Some(traces[j]);
      ConvertedAloneHasRoot(items, i);
    }
  }

  lemma ConvertedAloneHasRoot(items: seq<TraceItem>, i: int)
    requires 0 <= i < |items|
    ensures ConvertTrace(items[i], []).Some? ==>
      MetadataSpans(items)[i].Some? && ConvertTrace(items[i], []).value.spans == [MetadataSpans(items)[i].value]
  {
    ConvertedAloneIsMetadataSpan(items[i]);
  }

  /** A present metadata span of the response is a root span of its own trace. */
  lemma MetadataRoot(items: seq<TraceItem>, k: int)
    requires 0 <= k < |items|
    ensures MetadataSpans(items)[k] == MetadataSpan(items[k])
    ensures MetadataSpans(items)[k].Some? ==>
      MetadataSpans(items)[k].value.spanId == MetadataSpans(items)[k].value.traceId &&
      MetadataSpans(items)[k].value.parentSpanId.None?
  {
  }

  /** A span search over traces that each consist of one record's metadata span returns only such root spans. */
  lemma SpanSearchOverMetadataTraces(
    items: seq<TraceItem>, traces: seq<Trace>, spanFilters: seq<Filter>, spanMatches: (Span, seq<Filter>) -> bool)
    requires SingleSpanFrom(MetadataSpans(items), traces)
    ensures forall s :: s in SearchSpans(traces, spanFilters, spanMatches) ==>
      s.spanId == s.traceId && s.parentSpanId.None? &&
      exists i :: 0 <= i < |items| && MetadataSpan(items[i]) == Some(s)
  {
    var roots := MetadataSpans(items);
    SpansOfSingleSpanTraces(roots, traces, spanFilters, spanMatches);
    forall s | s in SearchSpans(traces, spanFilters, spanMatches)
      ensures s.spanId == s.traceId && s.parentSpanId.None?
      ensures exists i :: 0 <= i < |items| && MetadataSpan(items[i]) == Some(s)
    {
      var k :| 0 <= k < |roots| && roots[k] == Some(s);
      MetadataRoot(items, k);
    }
  }

  /**
    A span search over trace-search results returns only metadata spans:
    each is the root span of some record of the store's response, so no
    observation span is ever returned.
   */
  lemma SpanSearchSeesOnlyMetadataSpans(
    items: seq<TraceItem>, filters: seq<Filter>, matches: (Trace, seq<Filter>) -> bool,
    spanFilters: seq<Filter>, spanMatches: (Span, seq<Filter>) -> bool)
    ensures forall s :: s in SearchSpans(SearchTraces(items, filters, matches), spanFilters, spanMatches) ==>
      s.spanId == s.traceId && s.parentSpanId.None? &&
      exists i :: 0 <= i < |items| && MetadataSpan(items[i]) == Some(s)
  {
    SearchedTracesSingleSpan(items, filters, matches);
    SpanSearchOverMetadataTraces(items, SearchTraces(items, filters, matches), spanFilters, spanMatches);
  }

  /** Trace conversion of a response commutes with splitting the response. */
  lemma SearchConversionsAppend(a: seq<TraceItem>, b: seq<TraceItem>)
    ensures SearchConversions(a + b) == SearchConversions(a) + SearchConversions(b)
  {
    var ca, cb, cab := SearchConversions(a), SearchConversions(b), SearchConversions(a + b);
    forall i | 0 <= i < |cab|
      ensures cab[i] == (ca + cb)[i]
    {
      if i < |a| {
        assert (a + b)[i] == a[i];
      } else {
        assert (a + b)[i] == b[i - |a|];
      }
    }
  }

  /**
    A trace search keeps the store's response order: searching a response
    that is the concatenation of two parts gives the concatenation of the
    two parts' results.
   */
  lemma SearchTracesAppend(a: seq<TraceItem>, b: seq<TraceItem>, filters: seq<Filter>, matches: (Trace, seq<Filter>) -> bool)
    ensures SearchTraces(a + b, filters, matches) == SearchTraces(a, filters, matches) + SearchTraces(b, filters, matches)
  {
    SearchConversionsAppend(a, b);
    SomesAppend(SearchConversions(a), SearchConversions(b));
    var client := ClientFilters(filters);
    if client != [] {
      SelectAppend(ConvertedTraces(a), ConvertedTraces(b), t => matches(t, client));
    }
  }

  lemma SpanListsAppend(a: seq<Trace>, b: seq<Trace>)
    ensures SpanLists(a + b) == SpanLists(a) + SpanLists(b)
  {
    var la, lb, lab := SpanLists(a), SpanLists(b), SpanLists(a + b);
    forall i | 0 <= i < |lab|
      ensures lab[i] == (la + lb)[i]
    {
      if i < |a| {
        assert (a + b)[i] == a[i];
      } else {
        assert (a + b)[i] == b[i - |a|];
      }
    }
  }

  /**
    Within one trace a span search keeps the trace's span order: all its
    spans without filters, otherwise the order-preserving selection of those
    the filter engine accepts.
   */
  lemma SearchSpansOneTrace(t: Trace, filters: seq<Filter>, matches: (Span, seq<Filter>) -> bool)
    ensures filters == [] ==> SearchSpans([t], filters, matches) == t.spans
    ensures filters != [] ==> SearchSpans([t], filters, matches) == Select(t.spans, s => matches(s, filters))
  {
    assert SpanLists([t]) == [t.spans];
  }

  /**
    A span search keeps trace order and span order: searching the spans of
    two trace lists in turn and concatenating gives the search over their
    concatenation.
   */
  lemma SearchSpansAppend(a: seq<Trace>, b: seq<Trace>, filters: seq<Filter>, matches: (Span, seq<Filter>) -> bool)
    ensures SearchSpans(a + b, filters, matches) == SearchSpans(a, filters, matches) + SearchSpans(b, filters, matches)
  {
    SpanListsAppend(a, b);
    FlattenAppend(SpanLists(a), SpanLists(b));
    if filters != [] {
      SelectAppend(AllSpans(a), AllSpans(b), s => matches(s, filters));
    }
  }
}
