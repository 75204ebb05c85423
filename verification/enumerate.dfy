/**
  Service and operation enumeration. Services are the distinct trace names of
  the store's most recent traces; the operations of a service are the
  distinct session ids of the traces the store lists under that name. Both
  come back as Python's `sorted(set(...))` of the non-empty values.
 */
module Enumerate {
  import opened Wrappers
  import opened Strings
  import opened Records

  /** The present, non-empty values of `xs`, in order. */
  function PresentValues(xs: seq<Option<string>>): (r: seq<string>)
    ensures forall v :: v in r <==> exists i :: 0 <= i < |xs| && Truthy(xs[i]) && xs[i].value == v
  {
    if |xs| == 0 then []
    else
      var rest := PresentValues(xs[1..]);
      assert forall v :: v in rest <==> exists i :: 1 <= i < |xs| && Truthy(xs[i]) && xs[i].value == v by {
        forall v | v in rest
          ensures exists i :: 1 <= i < |xs| && Truthy(xs[i]) && xs[i].value == v
        {
          var k :| 0 <= k < |xs[1..]| && Truthy(xs[1..][k]) && xs[1..][k].value == v;
          assert Truthy(xs[k + 1]) && xs[k + 1].value == v;
        }
        forall v, i | 1 <= i < |xs| && Truthy(xs[i]) && xs[i].value == v
          ensures v in rest
        {
          assert Truthy(xs[1..][i - 1]);
        }
      }
      if Truthy(xs[0]) then [xs[0].value] + rest else rest
  }

  /** The trace names of `items`, as the store reports them. */
  function Names(items: seq<TraceItem>): (r: seq<Option<string>>)
    ensures |r| == |items| && forall i :: 0 <= i < |items| ==> r[i] == items[i].name
  {
    seq(|items|, i requires 0 <= i < |items| => items[i].name)
  }

  /** The session ids of `items`, as the store reports them. */
  function SessionIds(items: seq<TraceItem>): (r: seq<Option<string>>)
    ensures |r| == |items| && forall i :: 0 <= i < |items| ==> r[i] == items[i].sessionId
  {
    seq(|items|, i requires 0 <= i < |items| => items[i].sessionId)
  }

  /** The service list: strictly sorted (so duplicate-free) and holding exactly the non-empty trace names. */
  function ListServices(items: seq<TraceItem>): (r: seq<string>)
    ensures StrictlySorted(r)
    ensures forall n :: n in r <==> exists i :: 0 <= i < |items| && Truthy(items[i].name) && items[i].name.value == n
  {
    var names := PresentValues(Names(items));
    var r := SortedDistinct(names);
    assert forall n :: n in r <==> n in names by {
      forall n
        ensures n in r <==> n in names
      {
        assert n in r <==> n in Elems(r);
        assert n in names <==> n in Elems(names);
      }
    }
    r
  }

  /**
    The operation list of a service, given the traces the store returned for
    it: strictly sorted and holding exactly their non-empty session ids.
   */
  function GetServiceOperations(items: seq<TraceItem>): (r: seq<string>)
    ensures StrictlySorted(r)
    ensures forall s :: s in r <==> exists i :: 0 <= i < |items| && Truthy(items[i].sessionId) && items[i].sessionId.value == s
  {
    var ids := PresentValues(SessionIds(items));
    var r := SortedDistinct(ids);
    assert forall s :: s in r <==> s in ids by {
      forall s
        ensures s in r <==> s in ids
      {
        assert s in r <==> s in Elems(r);
        assert s in ids <==> s in Elems(ids);
      }
    }
    r
  }

  /**
    The service list is the one strictly sorted enumeration of the non-empty
    trace names: any other sequence with that property is equal to it.
   */
  lemma ListServicesIsSortedSet(items: seq<TraceItem>, other: seq<string>)
    requires StrictlySorted(other)
    requires forall n :: n in other <==> exists i :: 0 <= i < |items| && Truthy(items[i].name) && items[i].name.value == n
    ensures other == ListServices(items)
  {
    var r := ListServices(items);
    assert Elems(other) == Elems(r);
    StrictlySortedUnique(other, r);
  }

  /** The operation list is the one strictly sorted enumeration of the non-empty session ids. */
  lemma GetServiceOperationsIsSortedSet(items: seq<TraceItem>, other: seq<string>)
    requires StrictlySorted(other)
    requires forall s :: s in other <==> exists i :: 0 <= i < |items| && Truthy(items[i].sessionId) && items[i].sessionId.value == s
    ensures other == GetServiceOperations(items)
  {
    var r := GetServiceOperations(items);
    assert Elems(other) == Elems(r);
    StrictlySortedUnique(other, r);
  }

  /** Neither list repeats a value. */
  lemma EnumerationsDistinct(items: seq<TraceItem>)
    ensures forall i, j :: 0 <= i < j < |ListServices(items)| ==> ListServices(items)[i] != ListServices(items)[j]
    ensures forall i, j :: 0 <= i < j < |GetServiceOperations(items)| ==>
      GetServiceOperations(items)[i] != GetServiceOperations(items)[j]
  {
    StrictlySortedDistinct(ListServices(items));
    StrictlySortedDistinct(GetServiceOperations(items));
  }
}
