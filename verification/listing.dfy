/**
 Listing (`AppointmentController.index`): the requester's active appointments,
 ordered by date, twenty per page.
 */
module Listing {
  import opened Models

  /** The page size (`limit: 20`). */
  const PageSize: nat := 20

  /** The `where` clause: the requester's appointments with `canceled_at` null, in store order. */
  function ActiveOf(appointments: seq<Appointment>, requester: int): (r: seq<Appointment>)
    ensures |r| <= |appointments|
    ensures forall a :: a in r <==> a in appointments && a.userId == requester && a.Active()
    ensures forall a :: multiset(r)[a] == if a.userId == requester && a.Active() then multiset(appointments)[a] else 0
  {
    if |appointments| == 0 then []
    else
      var rest := ActiveOf(appointments[1..], requester);
      assert appointments == [appointments[0]] + appointments[1..];
      assert forall a :: a in appointments <==> a == appointments[0] || a in appointments[1..];
      if appointments[0].userId == requester && appointments[0].Active() then [appointments[0]] + rest
      else rest
  }

  predicate SortedByDate(s: seq<Appointment>)
  {
    forall i, j :: 0 <= i < j < |s| ==> s[i].date <= s[j].date
  }

  /** Prepending an appointment no later than any in a sorted sequence keeps it sorted. */
  lemma PrependSorted(a: Appointment, s: seq<Appointment>)
    requires SortedByDate(s)
    requires forall j :: 0 <= j < |s| ==> a.date <= s[j].date
    ensures SortedByDate([a] + s)
  {
    var r := [a] + s;
    forall i, j | 0 <= i < j < |r| ensures r[i].date <= r[j].date {
      assert r[j] == s[j - 1];
      if i > 0 { assert r[i] == s[i - 1]; }
    }
  }

  /** A lower bound of `a` and of every element of `s` bounds every element of a sequence holding exactly those. */
  lemma LowerBoundKept(d: int, a: Appointment, s: seq<Appointment>, r: seq<Appointment>)
    requires d <= a.date && forall j :: 0 <= j < |s| ==> d <= s[j].date
    requires multiset(r) == multiset(s) + multiset{a}
    ensures forall j :: 0 <= j < |r| ==> d <= r[j].date
  {
    forall j | 0 <= j < |r| ensures d <= r[j].date {
      assert r[j] in multiset(s) + multiset{a};
    }
  }

  /** Puts `a` before every appointment whose date is not earlier than its own. */
  function InsertByDate(a: Appointment, s: seq<Appointment>): (r: seq<Appointment>)
    requires SortedByDate(s)
    ensures SortedByDate(r)
    ensures multiset(r) == multiset(s) + multiset{a}
  {
    if |s| == 0 then [a]
    else if a.date <= s[0].date then
      PrependSorted(a, s);
      [a] + s
    else
      var rest := InsertByDate(a, s[1..]);
      assert s == [s[0]] + s[1..];
      LowerBoundKept(s[0].date, a, s[1..], rest);
      PrependSorted(s[0], rest);
      [s[0]] + rest
  }

  /** The `order: ['date']` clause; equal dates keep store order. */
  function SortByDate(s: seq<Appointment>): (r: seq<Appointment>)
    ensures SortedByDate(r)
    ensures multiset(r) == multiset(s)
  {
    if |s| == 0 then []
    else
      assert s == [s[0]] + s[1..];
      InsertByDate(s[0], SortByDate(s[1..]))
  }

  /**
   Everything the requester may see, across all pages: ordered by date, each of
   the requester's active rows exactly as often as it is stored, nothing else.
   */
  function Listing(appointments: seq<Appointment>, requester: int): (r: seq<Appointment>)
    ensures SortedByDate(r)
    ensures multiset(r) == multiset(ActiveOf(appointments, requester))
    ensures forall a :: a in r <==> a in appointments && a.userId == requester && a.Active()
  {
    var active := ActiveOf(appointments, requester);
    var r := SortByDate(active);
    assert forall a :: a in r <==> a in multiset(active);
    r
  }

  /** The slice `offset`, `offset + limit` of `s`, clipped to its end. */
  function Window(s: seq<Appointment>, offset: nat, limit: nat): (r: seq<Appointment>)
    ensures |r| == if offset >= |s| then 0 else if offset + limit >= |s| then |s| - offset else limit
    ensures forall j :: 0 <= j < |r| ==> r[j] == s[offset + j]
  {
    if offset >= |s| then [] else if offset + limit >= |s| then s[offset..] else s[offset..offset + limit]
  }

  lemma WindowWithin(s: seq<Appointment>, offset: nat, limit: nat)
    requires SortedByDate(s)
    ensures |Window(s, offset, limit)| <= limit
    ensures SortedByDate(Window(s, offset, limit))
    ensures forall a :: a in Window(s, offset, limit) ==> a in s
  {
    var w := Window(s, offset, limit);
    forall a | a in w ensures a in s {
      var j :| 0 <= j < |w| && w[j] == a;
      assert s[offset + j] == a;
    }
  }

  /** The row offset of a page: `(page - 1) * 20`, with `page` defaulting to 1. */
  function Offset(page: Option<int>): int
  {
    ((if page.None? then 1 else page.value) - 1) * PageSize
  }

  /**
   `index`: `page` defaults to 1; the offset is `(page - 1) * 20`, which for a
   page below 1 is negative and makes the query fail.
   */
  function Index(appointments: seq<Appointment>, requester: int, page: Option<int>): (r: Reply<seq<Appointment>>)
    ensures r.Ok? <==> page.None? || page.value >= 1
    ensures !r.Ok? ==> r == Crash
    ensures r.Ok? ==> |r.value| <= PageSize && SortedByDate(r.value)
    ensures r.Ok? ==> forall a :: a in r.value ==> a in appointments && a.userId == requester && a.Active()
    ensures r.Ok? ==>
      var listing := Listing(appointments, requester);
      var offset := Offset(page);
      && |r.value| == (if offset >= |listing| then 0 else if offset + PageSize >= |listing| then |listing| - offset else PageSize)
      && forall j :: 0 <= j < |r.value| ==> r.value[j] == listing[offset + j]
  {
    var p := if page.None? then 1 else page.value;
    if p < 1 then Crash
    else
      var listing := Listing(appointments, requester);
      var w := Window(listing, Offset(page), PageSize);
      WindowWithin(listing, Offset(page), PageSize);
      Ok(w)
  }

  /**
   The pages partition the listing: its `k`-th entry is entry `k % 20` of page
   `k / 20 + 1`.
   */
  lemma IndexCoversListing(appointments: seq<Appointment>, requester: int, k: nat)
    requires k < |Listing(appointments, requester)|
    ensures var r := Index(appointments, requester, Some(k / PageSize + 1));
      r.Ok? && k % PageSize < |r.value| && r.value[k % PageSize] == Listing(appointments, requester)[k]
  {
  }

  /** Every active appointment of the requester shows up on some page. */
  lemma IndexListsEveryActive(appointments: seq<Appointment>, requester: int, a: Appointment)
    requires a in appointments && a.userId == requester && a.Active()
    ensures exists page: int :: page >= 1 && var r := Index(appointments, requester, Some(page));
      r.Ok? && a in r.value
  {
    var listing := Listing(appointments, requester);
    assert a in listing;
    var k :| 0 <= k < |listing| && listing[k] == a;
    IndexCoversListing(appointments, requester, k);
    var page := k / PageSize + 1;
    assert Index(appointments, requester, Some(page)).value[k % PageSize] == a;
  }
}
