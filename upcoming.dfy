/**
  The "upcoming events" query (getUpcomingEvents) and the three-card
  preview on the home screen. The query keeps the events dated at or
  after `now` and sorts them by date with a stable sort, so events that
  share a date keep the order in which they were created.
*/
module Upcoming {
  import opened Records

  /** Non-decreasing by date. */
  ghost predicate Sorted(s: seq<Event>) {
    forall i, j :: 0 <= i < j < |s| ==> s[i].date <= s[j].date
  }

  /** The events of `s` dated `d`, in the order of `s`. A sort is stable
      exactly when it keeps this subsequence for every date. */
  function WithDate(s: seq<Event>, d: int): seq<Event> {
    if s == [] then []
    else (if s[0].date == d then [s[0]] else []) + WithDate(s[1..], d)
  }

  /** The filter `new Date(event.date) >= now`. */
  function FromDate(s: seq<Event>, now: int): (r: seq<Event>)
    ensures forall e :: e in r <==> e in s && e.date >= now
  {
    if s == [] then []
    else (if s[0].date >= now then [s[0]] else []) + FromDate(s[1..], now)
  }

  /** Places `x` before the first element dated no earlier than it; the
      result holds the events of `s` and `x`, and nothing else. */
  function Insert(x: Event, s: seq<Event>): (r: seq<Event>)
    ensures multiset(r) == multiset(s) + multiset{x}
  {
    if s == [] || x.date <= s[0].date then [x] + s
    else
      assert s == [s[0]] + s[1..];
      [s[0]] + Insert(x, s[1..])
  }

  /** A stable sort by date: the comparator `a.date - b.date`. It returns
      a permutation of its input. */
  function SortByDate(s: seq<Event>): (r: seq<Event>)
    ensures multiset(r) == multiset(s)
  {
    if s == [] then []
    else
      assert s == [s[0]] + s[1..];
      Insert(s[0], SortByDate(s[1..]))
  }

  /** getUpcomingEvents: filter, then sort. */
  function UpcomingEvents(events: seq<Event>, now: int): (r: seq<Event>)
    ensures Sorted(r)
    ensures forall e :: e in r <==> e in events && e.date >= now
    ensures forall d :: WithDate(r, d) == if d >= now then WithDate(events, d) else []
  {
    var kept := FromDate(events, now);
    SortIsSorted(kept);
    forall e ensures e in SortByDate(kept) <==> e in kept {
      assert e in SortByDate(kept) <==> e in multiset(SortByDate(kept));
      assert e in kept <==> e in multiset(kept);
    }
    forall d ensures WithDate(SortByDate(kept), d) == if d >= now then WithDate(events, d) else [] {
      SortIsStable(kept, d);
      FromDateByDate(events, now, d);
    }
    SortByDate(kept)
  }

  /** `getUpcomingEvents().slice(0, 3)` on the home screen. */
  function Preview(events: seq<Event>, now: int): (r: seq<Event>)
    ensures |r| == if |UpcomingEvents(events, now)| < 3 then |UpcomingEvents(events, now)| else 3
    ensures r == UpcomingEvents(events, now)[..|r|]
    ensures forall e :: e in r ==> e in events && e.date >= now
    ensures forall e, f :: e in r && f in events && now <= f.date < e.date ==> f in r
  {
    var up := UpcomingEvents(events, now);
    var r := if |up| <= 3 then up else up[..3];
    assert forall e :: e in r ==> e in up;
    PrefixHoldsSoonest(up, |r|);
    r
  }

  /** In a sorted list, a prefix holds every element dated strictly before
      one of its own elements. */
  lemma PrefixHoldsSoonest(s: seq<Event>, n: nat)
    requires Sorted(s) && n <= |s|
    ensures forall e, f :: e in s[..n] && f in s && f.date < e.date ==> f in s[..n]
  {
  }

  lemma {:induction false} WithDateMembers(s: seq<Event>, d: int)
    ensures forall e :: e in WithDate(s, d) <==> e in s && e.date == d
  {
    if s != [] {
      WithDateMembers(s[1..], d);
      assert s == [s[0]] + s[1..];
    }
  }

  lemma SortedCons(x: Event, s: seq<Event>)
    requires Sorted(s)
    requires forall e :: e in s ==> x.date <= e.date
    ensures Sorted([x] + s)
  {
  }

  lemma {:induction false} InsertIsSorted(x: Event, s: seq<Event>)
    requires Sorted(s)
    ensures Sorted(Insert(x, s))
  {
    if s == [] || x.date <= s[0].date {
      forall e | e in s ensures x.date <= e.date {
        var k :| 0 <= k < |s| && s[k] == e;
        assert s[0].date <= s[k].date;
      }
      SortedCons(x, s);
    } else {
      var t := s[1..];
      assert Sorted(t);
      InsertIsSorted(x, t);
      forall e | e in Insert(x, t) ensures s[0].date <= e.date {
        assert e in multiset(Insert(x, t));
        if e != x {
          assert e in t;
          var k :| 0 <= k < |t| && t[k] == e;
          assert s[0].date <= s[k + 1].date;
        }
      }
      SortedCons(s[0], Insert(x, t));
    }
  }

  lemma {:induction false} SortIsSorted(s: seq<Event>)
    ensures Sorted(SortByDate(s))
  {
    if s != [] {
      SortIsSorted(s[1..]);
      InsertIsSorted(s[0], SortByDate(s[1..]));
    }
  }

  /** WithDate of a list built by putting `e` in front of `t`. */
  lemma WithDateCons(e: Event, t: seq<Event>, d: int)
    ensures WithDate([e] + t, d) == (if e.date == d then [e] else []) + WithDate(t, d)
  {
  }

  /** Inserting `x` only moves it past events of other dates. */
  lemma {:induction false} InsertIsStable(x: Event, s: seq<Event>, d: int)
    ensures WithDate(Insert(x, s), d) == WithDate([x] + s, d)
  {
    if s != [] && x.date > s[0].date {
      var t := s[1..];
      var hx := if x.date == d then [x] else [];
      var h0 := if s[0].date == d then [s[0]] else [];
      assert hx == [] || h0 == [];
      calc {
        WithDate(Insert(x, s), d);
        { assert Insert(x, s) == [s[0]] + Insert(x, t); WithDateCons(s[0], Insert(x, t), d); }
        h0 + WithDate(Insert(x, t), d);
        { InsertIsStable(x, t, d); WithDateCons(x, t, d); }
        h0 + (hx + WithDate(t, d));
        hx + (h0 + WithDate(t, d));
        { assert s == [s[0]] + t; WithDateCons(s[0], t, d); }
        hx + WithDate(s, d);
        { WithDateCons(x, s, d); }
        WithDate([x] + s, d);
      }
    }
  }

  /** The sort keeps, for every date, the order of the events on it. */
  lemma {:induction false} SortIsStable(s: seq<Event>, d: int)
    ensures WithDate(SortByDate(s), d) == WithDate(s, d)
  {
    if s != [] {
      SortIsStable(s[1..], d);
      InsertIsStable(s[0], SortByDate(s[1..]), d);
      assert ([s[0]] + SortByDate(s[1..]))[1..] == SortByDate(s[1..]);
    }
  }

  lemma {:induction false} FromDateByDate(s: seq<Event>, now: int, d: int)
    ensures WithDate(FromDate(s, now), d) == if d >= now then WithDate(s, d) else []
  {
    if s != [] {
      FromDateByDate(s[1..], now, d);
      var rest := FromDate(s[1..], now);
      if s[0].date >= now {
        var t := [s[0]] + rest;
        assert t[0] == s[0] && t[1..] == rest;
        assert WithDate(t, d) == (if s[0].date == d then [s[0]] else []) + WithDate(rest, d);
      } else {
        assert FromDate(s, now) == rest;
      }
    }
  }

  /** Two sorted lists with the same events on each date start on the
      same date. */
  lemma SameFirstDate(a: seq<Event>, b: seq<Event>)
    requires Sorted(a) && Sorted(b) && a != [] && b != []
    requires forall d :: WithDate(a, d) == WithDate(b, d)
    ensures a[0].date == b[0].date
  {
    var da, db := a[0].date, b[0].date;
    WithDateMembers(a, da);
    WithDateMembers(b, da);
    WithDateMembers(a, db);
    WithDateMembers(b, db);
    assert a[0] in WithDate(b, da);
    assert b[0] in WithDate(a, db);
  }

  lemma HasOwnDate(s: seq<Event>)
    requires s != []
    ensures WithDate(s, s[0].date) != []
  {
  }

  /** Dropping a shared first element keeps the lists' agreement on a date. */
  lemma TailsAgreeOnDate(a: seq<Event>, b: seq<Event>, d: int)
    requires a != [] && b != [] && a[0] == b[0]
    requires WithDate(a, d) == WithDate(b, d)
    ensures WithDate(a[1..], d) == WithDate(b[1..], d)
  {
    var head := if a[0].date == d then [a[0]] else [];
    assert WithDate(a, d) == head + WithDate(a[1..], d);
    assert WithDate(b, d) == head + WithDate(b[1..], d);
    assert WithDate(a[1..], d) == WithDate(a, d)[|head|..];
    assert WithDate(b[1..], d) == WithDate(b, d)[|head|..];
  }

  /** A sorted list is determined by what it holds on each date: there is
      only one stable sort of a given list. */
  lemma {:induction false} SortedByDateUnique(a: seq<Event>, b: seq<Event>)
    requires Sorted(a) && Sorted(b)
    requires forall d :: WithDate(a, d) == WithDate(b, d)
    ensures a == b
  {
    if a == [] || b == [] {
      if a != [] {
        HasOwnDate(a);
      } else if b != [] {
        HasOwnDate(b);
      }
    } else {
      SameFirstDate(a, b);
      var d0 := a[0].date;
      assert WithDate(a, d0) == [a[0]] + WithDate(a[1..], d0);
      assert WithDate(b, d0) == [b[0]] + WithDate(b[1..], d0);
      assert WithDate(a, d0)[0] == a[0] && WithDate(b, d0)[0] == b[0];
      forall d ensures WithDate(a[1..], d) == WithDate(b[1..], d) {
        TailsAgreeOnDate(a, b, d);
      }
      SortedByDateUnique(a[1..], b[1..]);
      assert a == [a[0]] + a[1..];
      assert b == [b[0]] + b[1..];
    }
  }

  /** UpcomingEvents is the only sorted list that holds, for each date on
      or after `now`, exactly the events of that date in their original
      order, and nothing dated earlier. */
  lemma UpcomingIsUnique(events: seq<Event>, now: int, r: seq<Event>)
    requires Sorted(r)
    requires forall d :: WithDate(r, d) == if d >= now then WithDate(events, d) else []
    ensures r == UpcomingEvents(events, now)
  {
    SortedByDateUnique(r, UpcomingEvents(events, now));
  }

  /** An event dated before `now` shows neither in the list nor on the home
      screen. */
  lemma PastEventHidden(events: seq<Event>, now: int, e: Event)
    requires e.date < now
    ensures e !in UpcomingEvents(events, now) && e !in Preview(events, now)
  {
  }
}
