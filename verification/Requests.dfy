// The foreign pairs of a transaction, in order of first use, and what a validation
// that passes does outside for them.
module Requests {
  import opened Wrappers
  import opened Entries
  import opened Rates

  /******* Distinct pairs, in order of first use *******/

  predicate IsForeign(e: Entry) {
    e.txCurrency != e.functionalCurrency
  }

  // From the transaction currency to the functional one, as of the effective date.
  function RequestFor(e: Entry, asOf: int): RateRequest {
    RateRequest(e.txCurrency, e.functionalCurrency, asOf)
  }

  // The distinct foreign pairs, by first use.
  function DistinctRequests(entries: seq<Entry>, asOf: int): seq<RateRequest> {
    if entries == [] then []
    else
      var last := entries[|entries| - 1];
      var front := DistinctRequests(entries[..|entries| - 1], asOf);
      if IsForeign(last) && RequestFor(last, asOf) !in front then front + [RequestFor(last, asOf)] else front
  }

  ghost predicate Needs(e: Entry, asOf: int, request: RateRequest) {
    e.txCurrency != e.functionalCurrency && request == RateRequest(e.txCurrency, e.functionalCurrency, asOf)
  }

  // The position of the first entry that needs `request`.
  ghost predicate FirstNeed(entries: seq<Entry>, asOf: int, request: RateRequest, i: nat) {
    i < |entries| && Needs(entries[i], asOf, request) && forall j :: 0 <= j < i ==> !Needs(entries[j], asOf, request)
  }

  ghost predicate NoRepeats(requests: seq<RateRequest>) {
    forall j, k :: 0 <= j < k < |requests| ==> requests[j] != requests[k]
  }

  ghost predicate InOrderOfNeed(entries: seq<Entry>, asOf: int, requests: seq<RateRequest>) {
    forall j, k, m, n | 0 <= j < k < |requests| ::
      FirstNeed(entries, asOf, requests[j], m) && FirstNeed(entries, asOf, requests[k], n) ==> m < n
  }

  // The distinct requests are exactly the needed ones, each once, by first need.
  lemma {:induction false} DistinctRequestsAre(entries: seq<Entry>, asOf: int)
    ensures NoRepeats(DistinctRequests(entries, asOf))
    ensures forall r :: r in DistinctRequests(entries, asOf) <==> exists i :: FirstNeed(entries, asOf, r, i)
    ensures InOrderOfNeed(entries, asOf, DistinctRequests(entries, asOf))
  {
    if entries != [] {
      var front := entries[..|entries| - 1];
      var d, all := DistinctRequests(front, asOf), DistinctRequests(entries, asOf);
      DistinctRequestsAre(front, asOf);
      forall r, i: nat | i < |front|
        ensures FirstNeed(front, asOf, r, i) <==> FirstNeed(entries, asOf, r, i)
      {
        assert forall j :: 0 <= j <= i ==> front[j] == entries[j];
      }
      var last := entries[|entries| - 1];
      if all != d {
        var r := RequestFor(last, asOf);
        assert all == d + [r];
        forall j | 0 <= j < |front| ensures !Needs(front[j], asOf, r) {
          if Needs(front[j], asOf, r) { FirstNeedExists(front, asOf, r, j); }
        }
        assert FirstNeed(entries, asOf, r, |front|);
        assert forall j :: 0 <= j < |d| ==> d[j] in d;
      }
      forall r, i: nat | FirstNeed(entries, asOf, r, i) ensures r in all {
        if i < |front| { assert FirstNeed(front, asOf, r, i); }
      }
    }
  }

  lemma {:induction false} FirstNeedExists(entries: seq<Entry>, asOf: int, r: RateRequest, j: nat)
    requires j < |entries| && Needs(entries[j], asOf, r)
    ensures exists i :: FirstNeed(entries, asOf, r, i)
  {
    if i :| 0 <= i < j && Needs(entries[i], asOf, r) {
      FirstNeedExists(entries, asOf, r, i);
    } else {
      assert FirstNeed(entries, asOf, r, j);
    }
  }

  lemma {:induction false} DistinctPrefix(entries: seq<Entry>, asOf: int, n: nat)
    requires n <= |entries|
    ensures DistinctRequests(entries[..n], asOf) <= DistinctRequests(entries, asOf)
  {
    if n == |entries| {
      assert entries[..n] == entries;
    } else {
      var front := entries[..|entries| - 1];
      assert entries[..n] == front[..n];
      DistinctPrefix(front, asOf, n);
    }
  }

  lemma ExtendDistinct(entries: seq<Entry>, asOf: int, i: nat)
    requires i < |entries|
    ensures DistinctRequests(entries[..i + 1], asOf)
         == var d := DistinctRequests(entries[..i], asOf);
            var r := RequestFor(entries[i], asOf);
            if IsForeign(entries[i]) && r !in d then d + [r] else d
  {
    assert entries[..i + 1][..i] == entries[..i];
  }

  /******* Where a pair is *******/

  function IndexOf(requests: seq<RateRequest>, r: RateRequest): nat {
    if requests == [] || requests[0] == r then 0 else 1 + IndexOf(requests[1..], r)
  }

  lemma {:induction false} IndexOfAt(requests: seq<RateRequest>, j: nat)
    requires NoRepeats(requests) && j < |requests|
    ensures IndexOf(requests, requests[j]) == j
  {
    if j > 0 { IndexOfAt(requests[1..], j - 1); }
  }

  // The position of `r` among all requests agrees with where the calls so far put it.
  predicate Placed(d: seq<RateRequest>, all: seq<RateRequest>, r: RateRequest) {
    var j := IndexOf(all, r);
    if r in d then j < |d| && d[j] == r else j == |d|
  }

  // The position of a pair among the distinct requests, seen from an entry that needs it.
  lemma FirstUse(entries: seq<Entry>, asOf: int, i: nat)
    requires i < |entries| && IsForeign(entries[i])
    ensures Placed(DistinctRequests(entries[..i], asOf), DistinctRequests(entries, asOf), RequestFor(entries[i], asOf))
  {
    var all, d := DistinctRequests(entries, asOf), DistinctRequests(entries[..i], asOf);
    var r := RequestFor(entries[i], asOf);
    DistinctRequestsAre(entries, asOf);
    ExtendDistinct(entries, asOf, i);
    DistinctPrefix(entries, asOf, i + 1);
    var known := if r in d then d else d + [r];
    var j :| 0 <= j < |known| && known[j] == r && (r !in d ==> j == |d|);
    assert all[j] == known[j];
    IndexOfAt(all, j);
  }

  // No entry before `i` needed its pair.
  predicate IsNew(entries: seq<Entry>, asOf: int, i: nat)
    requires i < |entries|
  {
    RequestFor(entries[i], asOf) !in DistinctRequests(entries[..i], asOf)
  }

  /******* The log of a run that passes *******/

  // What a passing entry does outside, given the pairs already known.
  function EntryEvents(e: Entry, asOf: int, known: seq<RateRequest>): seq<Event> {
    if !IsForeign(e) then []
    else if RequestFor(e, asOf) in known then [Looked(None)]
    else [Looked(None), Asked(RequestFor(e, asOf)), Looked(None)]
  }

  // How often a passing entry looks at the context.
  function EntryLooks(e: Entry, asOf: int, known: seq<RateRequest>): nat {
    if !IsForeign(e) then 0 else if RequestFor(e, asOf) in known then 1 else 2
  }

  // What passing entries do outside: a clean look each, and around the first use of a
  // pair one request with a second clean look after it.
  function CleanLog(entries: seq<Entry>, asOf: int): seq<Event> {
    if entries == [] then []
    else
      var front := entries[..|entries| - 1];
      CleanLog(front, asOf) + EntryEvents(entries[|entries| - 1], asOf, DistinctRequests(front, asOf))
  }

  function CountForeign(entries: seq<Entry>): nat {
    if entries == [] then 0
    else CountForeign(entries[..|entries| - 1]) + if IsForeign(entries[|entries| - 1]) then 1 else 0
  }

  // How often passing entries look at the context.
  function LooksFor(entries: seq<Entry>, asOf: int): nat {
    CountForeign(entries) + |DistinctRequests(entries, asOf)|
  }

  lemma ExtendLog(entries: seq<Entry>, asOf: int, i: nat)
    requires i < |entries|
    ensures var d := DistinctRequests(entries[..i], asOf);
            && CleanLog(entries[..i + 1], asOf) == CleanLog(entries[..i], asOf) + EntryEvents(entries[i], asOf, d)
            && LooksFor(entries[..i + 1], asOf)
            == LooksFor(entries[..i], asOf)
               + EntryLooks(entries[i], asOf, d)
  {
    assert entries[..i + 1][..i] == entries[..i];
    ExtendDistinct(entries, asOf, i);
  }

  lemma {:induction false} LooksForPrefix(entries: seq<Entry>, asOf: int, i: nat)
    requires i <= |entries|
    ensures LooksFor(entries[..i], asOf) <= LooksFor(entries, asOf)
    decreases |entries| - i
  {
    if i == |entries| {
      assert entries[..i] == entries;
    } else {
      ExtendLog(entries, asOf, i);
      LooksForPrefix(entries, asOf, i + 1);
    }
  }
}
