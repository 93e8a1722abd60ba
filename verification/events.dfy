/** Calendar events and the stable day order `groupEvents` sorts them into. */
module Events {
  import opened Civil

  /** An event is either all-day (`isAllDay: true` with a `date`) or timed
      (`startDate` and `endDate`). */
  datatype Event =
    | AllDay(title: string, date: Instant)
    | Timed(title: string, startDate: Instant, endDate: Instant)

  /** The date an event is sorted and grouped by: `date` for an all-day
      event, `startDate` otherwise. */
  function EffectiveDate(e: Event): Instant {
    if e.AllDay? then e.date else e.startDate
  }

  /** The calendar day of the effective date; events are compared at day granularity. */
  function DayKey(e: Event): int {
    EffectiveDate(e).day
  }

  // ---------------------------------------------------------------------
  // Filtering

  /** The elements of `s` that satisfy `p`, in their order in `s`. */
  function Filter(s: seq<Event>, p: Event -> bool): (r: seq<Event>)
    ensures |r| <= |s|
    ensures forall i :: 0 <= i < |r| ==> p(r[i])
  {
    if s == [] then [] else (if p(s[0]) then [s[0]] else []) + Filter(s[1..], p)
  }

  lemma {:induction false} FilterMembers(s: seq<Event>, p: Event -> bool)
    ensures forall x :: x in Filter(s, p) <==> x in s && p(x)
  {
    if s != [] {
      FilterMembers(s[1..], p);
      HeadTail(s);
    }
  }

  lemma {:induction false} FilterConcat(a: seq<Event>, b: seq<Event>, p: Event -> bool)
    ensures Filter(a + b, p) == Filter(a, p) + Filter(b, p)
  {
    if a == [] {
      assert a + b == b;
    } else {
      assert (a + b)[0] == a[0];
      assert (a + b)[1..] == a[1..] + b;
      FilterConcat(a[1..], b, p);
    }
  }

  lemma {:induction false} FilterExtensional(s: seq<Event>, p: Event -> bool, q: Event -> bool)
    requires forall x :: x in s ==> p(x) == q(x)
    ensures Filter(s, p) == Filter(s, q)
  {
    if s != [] {
      FilterExtensional(s[1..], p, q);
    }
  }

  /** Events whose effective date falls on day `k`. */
  function OnDay(k: int): Event -> bool {
    e => DayKey(e) == k
  }

  // ---------------------------------------------------------------------
  // Stable sort by day

  ghost predicate SortedByDay(s: seq<Event>) {
    forall i, j :: 0 <= i < j < |s| ==> DayKey(s[i]) <= DayKey(s[j])
  }

  lemma {:induction false} FilterKeepsOrder(s: seq<Event>, p: Event -> bool)
    requires SortedByDay(s)
    ensures SortedByDay(Filter(s, p))
  {
    if s != [] {
      FilterKeepsOrder(s[1..], p);
      FilterMembers(s[1..], p);
      var t := Filter(s[1..], p);
      forall x | x in t
        ensures DayKey(s[0]) <= DayKey(x)
      {
        var k :| 0 <= k < |s[1..]| && s[1..][k] == x;
        assert s[k + 1] == x;
      }
    }
  }

  lemma SortedCons(x: Event, t: seq<Event>)
    requires SortedByDay(t)
    requires forall y | y in t :: DayKey(x) <= DayKey(y)
    ensures SortedByDay([x] + t)
  {
    var r := [x] + t;
    forall i, j | 0 <= i < j < |r|
      ensures DayKey(r[i]) <= DayKey(r[j])
    {
      assert r[j] == t[j - 1];
      if i > 0 {
        assert r[i] == t[i - 1];
      } else {
        assert t[j - 1] in t;
      }
    }
  }

  /** Inserts `x` before the first event that is not on an earlier day, so
      that `x` precedes the events of its own day already in `s`. */
  function Insert(x: Event, s: seq<Event>): (r: seq<Event>)
    requires SortedByDay(s)
    ensures SortedByDay(r)
    ensures multiset(r) == multiset(s) + multiset{x}
  {
    if s == [] || DayKey(x) <= DayKey(s[0]) then
      SortedCons(x, s);
      [x] + s
    else
      var t := Insert(x, s[1..]);
      HeadTail(s);
      forall y | y in t
        ensures DayKey(s[0]) <= DayKey(y)
      {
        assert y in multiset(s[1..]) + multiset{x};
      }
      SortedCons(s[0], t);
      [s[0]] + t
  }

  /** A non-empty sequence is its head followed by its tail. */
  lemma HeadTail(s: seq<Event>)
    requires s != []
    ensures [s[0]] + s[1..] == s
  {
  }

  lemma FilterCons(y: Event, t: seq<Event>, p: Event -> bool)
    ensures Filter([y] + t, p) == (if p(y) then [y] else []) + Filter(t, p)
  {
    assert ([y] + t)[0] == y && ([y] + t)[1..] == t;
  }

  lemma {:induction false} InsertOnDay(x: Event, s: seq<Event>, k: int)
    requires SortedByDay(s)
    ensures Filter(Insert(x, s), OnDay(k)) == (if DayKey(x) == k then [x] else []) + Filter(s, OnDay(k))
  {
    if s == [] || DayKey(x) <= DayKey(s[0]) {
      FilterCons(x, s, OnDay(k));
    } else {
      InsertAfterHead(x, s);
      InsertOnDay(x, s[1..], k);
      HeadTail(s);
      KeepOneOfTwo(s[0], Insert(x, s[1..]), s[1..], x, k);
    }
  }

  /** When `x` is on a later day than the head of `s`, it is inserted into
      the tail. */
  lemma InsertAfterHead(x: Event, s: seq<Event>)
    requires SortedByDay(s) && s != [] && DayKey(s[0]) < DayKey(x)
    ensures SortedByDay(s[1..])
    ensures Insert(x, s) == [s[0]] + Insert(x, s[1..])
  {
  }

  /** Filtering day `k` keeps at most one of `h` and `x`, two events on
      different days, so `h` can be put in front on both sides. */
  lemma KeepOneOfTwo(h: Event, t: seq<Event>, u: seq<Event>, x: Event, k: int)
    requires DayKey(h) < DayKey(x)
    requires Filter(t, OnDay(k)) == (if DayKey(x) == k then [x] else []) + Filter(u, OnDay(k))
    ensures Filter([h] + t, OnDay(k)) == (if DayKey(x) == k then [x] else []) + Filter([h] + u, OnDay(k))
  {
    var p := OnDay(k);
    FilterCons(h, t, p);
    FilterCons(h, u, p);
    var head := if p(h) then [h] else [];
    var mid := if DayKey(x) == k then [x] else [];
    var rest := Filter(u, p);
    if DayKey(x) == k {
      assert head == [];
      assert head + (mid + rest) == mid + rest;
      assert head + rest == rest;
    } else {
      assert mid == [];
      assert mid + rest == rest;
      assert mid + (head + rest) == head + rest;
    }
  }

  /** `events.sort(...)` with the comparator of `groupEvents`: ascending by
      the calendar day of the effective date, events of one day in their
      input order (the sort is stable). */
  function SortByDay(s: seq<Event>): (r: seq<Event>)
    ensures SortedByDay(r)
    ensures multiset(r) == multiset(s)
    ensures forall k :: Filter(r, OnDay(k)) == Filter(s, OnDay(k))
  {
    if s == [] then []
    else
      var t := SortByDay(s[1..]);
      HeadTail(s);
      forall k
        ensures Filter(Insert(s[0], t), OnDay(k)) == Filter(s, OnDay(k))
      {
        InsertOnDay(s[0], t, k);
        FilterCons(s[0], s[1..], OnDay(k));
      }
      Insert(s[0], t)
  }

  lemma {:induction false} FilterCommutes(s: seq<Event>, p: Event -> bool, q: Event -> bool)
    ensures Filter(Filter(s, p), q) == Filter(Filter(s, q), p)
  {
    if s != [] {
      FilterCommutes(s[1..], p, q);
      var x := s[0];
      var a, b := Filter(s[1..], p), Filter(s[1..], q);
      FilterConcat(if p(x) then [x] else [], a, q);
      FilterConcat(if q(x) then [x] else [], b, p);
      FilterSingletonOrEmpty(x, p, q);
    }
  }

  lemma FilterSingletonOrEmpty(x: Event, p: Event -> bool, q: Event -> bool)
    ensures Filter(if p(x) then [x] else [], q) == Filter(if q(x) then [x] else [], p)
  {
    FilterCons(x, [], p);
    FilterCons(x, [], q);
    assert [x] + [] == [x];
  }

  lemma {:induction false} FilterAll(s: seq<Event>, p: Event -> bool)
    requires forall x :: x in s ==> p(x)
    ensures Filter(s, p) == s
  {
    if s != [] {
      FilterAll(s[1..], p);
      HeadTail(s);
    }
  }

  lemma {:induction false} FilterNone(s: seq<Event>, p: Event -> bool)
    requires forall x :: x in s ==> !p(x)
    ensures Filter(s, p) == []
  {
    if s != [] {
      FilterNone(s[1..], p);
    }
  }
}
