/**
  Seats and registrants: the "Full" test that disables an event's
  Register button, the update that appends a registration to every event
  with the selected id, and the facts that keep the per-event copies of
  registrations in step with the global list.
*/
module Bookings {
  import opened Records

  /** `event.registeredUsers.length >= parseInt(event.capacity)`: no seat
      is left. */
  predicate IsFull(e: Event): (full: bool)
    ensures full <==> Seats(e) <= |e.registeredUsers|
  {
    |e.registeredUsers| >= e.capacity
  }

  /** The Register button of an event card. */
  datatype RegisterButton = RegisterButton(caption: string, disabled: bool)

  /** The button is disabled, and reads "Full", exactly when the event is
      full; otherwise it reads "Register". */
  function ButtonFor(e: Event): (b: RegisterButton)
    ensures b.disabled <==> IsFull(e)
    ensures b.caption == (if b.disabled then "Full" else "Register")
  {
    var full := IsFull(e);
    RegisterButton(if full then "Full" else "Register", full)
  }

  /** The button stays enabled with one seat left and is disabled once the
      registrants reach the capacity. */
  lemma LastSeatBoundary(e: Event)
    ensures |e.registeredUsers| == e.capacity - 1 ==> !ButtonFor(e).disabled && ButtonFor(e).caption == "Register"
    ensures |e.registeredUsers| == e.capacity ==> ButtonFor(e).disabled && ButtonFor(e).caption == "Full"
  {
  }

  /** `{ ...event, registeredUsers: [...event.registeredUsers, r] }`: the
      same event with one more registrant, `r`, after the earlier ones. */
  function Registered(e: Event, r: Registration): (res: Event)
    ensures res.(registeredUsers := e.registeredUsers) == e
    ensures |res.registeredUsers| == |e.registeredUsers| + 1
    ensures res.registeredUsers[..|e.registeredUsers|] == e.registeredUsers
    ensures res.registeredUsers[|e.registeredUsers|] == r
  {
    e.(registeredUsers := e.registeredUsers + [r])
  }

  /** Taking the last seat of an event that is not full makes it full, and
      taking any other seat leaves it open. */
  lemma TakingASeat(e: Event, r: Registration)
    requires !IsFull(e)
    ensures IsFull(Registered(e, r)) <==> |e.registeredUsers| + 1 == e.capacity
  {
  }

  /** The `prev.map(...)` of handleRegisterForEvent: every event whose id
      is `id` gains `r` at the end of its registrants, every other event is
      left as it was, and the list keeps its length and order. */
  function AddRegistrant(events: seq<Event>, id: int, r: Registration): (res: seq<Event>)
    ensures |res| == |events|
  {
    if events == [] then []
    else [if events[0].id == id then Registered(events[0], r) else events[0]] + AddRegistrant(events[1..], id, r)
  }

  /** Each event of the result is the event at the same position, with `r`
      appended to its registrants exactly when its id is `id`. */
  lemma {:induction false} AddRegistrantAt(events: seq<Event>, id: int, r: Registration)
    ensures forall i :: 0 <= i < |events| ==>
      AddRegistrant(events, id, r)[i].(registeredUsers := []) == events[i].(registeredUsers := [])
    ensures forall i :: 0 <= i < |events| ==>
      AddRegistrant(events, id, r)[i].registeredUsers ==
        events[i].registeredUsers + (if events[i].id == id then [r] else [])
  {
    if events != [] {
      AddRegistrantAt(events[1..], id, r);
      var res := AddRegistrant(events, id, r);
      forall i | 0 <= i < |events|
        ensures res[i].(registeredUsers := []) == events[i].(registeredUsers := [])
        ensures res[i].registeredUsers == events[i].registeredUsers + (if events[i].id == id then [r] else [])
      {
        if i > 0 {
          assert res[i] == AddRegistrant(events[1..], id, r)[i - 1];
          assert events[i] == events[1..][i - 1];
        }
      }
    }
  }

  /** The event ids are the same before and after a registration. */
  lemma AddRegistrantKeepsIds(events: seq<Event>, id: int, r: Registration)
    ensures Ids(AddRegistrant(events, id, r)) == Ids(events)
  {
    AddRegistrantAt(events, id, r);
    var res := AddRegistrant(events, id, r);
    forall i | 0 <= i < |events| ensures Ids(res)[i] == Ids(events)[i] {
      assert res[i].(registeredUsers := []).id == events[i].(registeredUsers := []).id;
    }
  }

  /** A registration leaves every event's time and location as they were. */
  lemma AddRegistrantKeepsFilled(events: seq<Event>, id: int, r: Registration)
    requires AllFilled(events)
    ensures AllFilled(AddRegistrant(events, id, r))
  {
  }

  /** Number of events with id `id`. */
  function Matches(events: seq<Event>, id: int): nat {
    if events == [] then 0 else (if events[0].id == id then 1 else 0) + Matches(events[1..], id)
  }

  /** Registrants summed over all events. */
  function TotalRegistered(events: seq<Event>): nat {
    if events == [] then 0 else |events[0].registeredUsers| + TotalRegistered(events[1..])
  }

  /** A registration adds one registrant to each event carrying the id. */
  lemma {:induction false} RegistrantsGrowByMatches(events: seq<Event>, id: int, r: Registration)
    ensures TotalRegistered(AddRegistrant(events, id, r)) == TotalRegistered(events) + Matches(events, id)
  {
    if events != [] {
      var res := AddRegistrant(events, id, r);
      RegistrantsGrowByMatches(events[1..], id, r);
      assert res[1..] == AddRegistrant(events[1..], id, r);
    }
  }

  /** With unique ids, an event of the list is the only one with its id. */
  lemma {:induction false} UniqueIdMatchesOnce(events: seq<Event>, i: nat)
    requires UniqueIds(events) && i < |events|
    ensures Matches(events, events[i].id) == 1
  {
    if i == 0 {
      NoMatch(events[1..], events[0].id);
    } else {
      UniqueIdMatchesOnce(events[1..], i - 1);
    }
  }

  lemma {:induction false} NoMatch(events: seq<Event>, id: int)
    requires forall e :: e in events ==> e.id != id
    ensures Matches(events, id) == 0
  {
    if events != [] {
      NoMatch(events[1..], id);
    }
  }

  /** With unique ids, registering for an event of the list adds exactly one
      registrant in all, to that event. */
  lemma RegisteringAddsOne(events: seq<Event>, i: nat, r: Registration)
    requires UniqueIds(events) && i < |events|
    ensures TotalRegistered(AddRegistrant(events, events[i].id, r)) == TotalRegistered(events) + 1
    ensures AddRegistrant(events, events[i].id, r)[i] == Registered(events[i], r)
  {
    AddRegistrantAt(events, events[i].id, r);
    RegistrantsGrowByMatches(events, events[i].id, r);
    UniqueIdMatchesOnce(events, i);
  }

  /** The seats an event offers: its capacity, or none if that is negative. */
  function Seats(e: Event): nat {
    if e.capacity < 0 then 0 else e.capacity
  }

  /** No event has more registrants than seats. */
  ghost predicate NoOverbooking(events: seq<Event>) {
    forall i :: 0 <= i < |events| ==> |events[i].registeredUsers| <= Seats(events[i])
  }

  /** The global registrations that name event `id`, in order. */
  function RegistrationsFor(regs: seq<Registration>, id: int): seq<Registration> {
    if regs == [] then []
    else RegistrationsFor(regs[..|regs| - 1], id) + (if regs[|regs| - 1].eventId == id then [regs[|regs| - 1]] else [])
  }

  /** Each event's `registeredUsers` is exactly the global registrations
      that name it, in the same order. */
  ghost predicate InSync(events: seq<Event>, regs: seq<Registration>) {
    forall i :: 0 <= i < |events| ==> events[i].registeredUsers == RegistrationsFor(regs, events[i].id)
  }

  /** Every registration names an event of the list. */
  ghost predicate ReferToEvents(regs: seq<Registration>, events: seq<Event>) {
    forall i :: 0 <= i < |regs| ==> regs[i].eventId in Ids(events)
  }

  /** What the planner keeps true of its two lists. With duplicate ids the
      copies may diverge and an event may be overbooked, so those two parts
      are stated for unique ids. */
  ghost predicate Consistent(events: seq<Event>, regs: seq<Registration>) {
    && ReferToEvents(regs, events)
    && (UniqueIds(events) ==> InSync(events, regs) && NoOverbooking(events))
  }

  lemma {:induction false} NothingRefersTo(regs: seq<Registration>, events: seq<Event>, id: int)
    requires ReferToEvents(regs, events) && id !in Ids(events)
    ensures RegistrationsFor(regs, id) == []
    decreases |regs|
  {
    if regs != [] {
      NothingRefersTo(regs[..|regs| - 1], events, id);
      assert regs[|regs| - 1].eventId in Ids(events);
    }
  }

  /** Appending a new event with no registrants keeps the lists
      consistent. */
  lemma {:induction false} CreateKeepsConsistent(events: seq<Event>, regs: seq<Registration>, e: Event)
    requires Consistent(events, regs)
    requires e.registeredUsers == []
    ensures Consistent(events + [e], regs)
  {
    var es := events + [e];
    assert Ids(es) == Ids(events) + [e.id];
    if UniqueIds(es) {
      assert UniqueIds(events) by {
        forall i, j | 0 <= i < j < |events| ensures events[i].id != events[j].id {
          assert es[i] == events[i] && es[j] == events[j];
        }
      }
      assert e.id !in Ids(events) by {
        forall k | 0 <= k < |events| ensures Ids(events)[k] != e.id {
          assert es[k] == events[k] && es[|events|] == e;
        }
      }
      NothingRefersTo(regs, events, e.id);
      forall i | 0 <= i < |es| ensures es[i].registeredUsers == RegistrationsFor(regs, es[i].id) {
        if i < |events| {
          assert es[i] == events[i];
        }
      }
      assert NoOverbooking(es) by {
        forall i | 0 <= i < |es| ensures |es[i].registeredUsers| <= Seats(es[i]) {
          if i < |events| {
            assert es[i] == events[i];
          }
        }
      }
    }
  }

  /** Registering `r` for `selected`, an event of the list that is not full,
      keeps the lists consistent. */
  lemma {:induction false} RegisterKeepsConsistent(
    events: seq<Event>, regs: seq<Registration>, selected: Event, r: Registration)
    requires Consistent(events, regs)
    requires selected in events && !IsFull(selected)
    requires r.eventId == selected.id
    ensures Consistent(AddRegistrant(events, selected.id, r), regs + [r])
  {
    var es := AddRegistrant(events, selected.id, r);
    var rs := regs + [r];
    AddRegistrantAt(events, selected.id, r);
    AddRegistrantKeepsIds(events, selected.id, r);
    assert selected.id in Ids(events) by {
      var k :| 0 <= k < |events| && events[k] == selected;
      assert Ids(events)[k] == selected.id;
    }
    assert ReferToEvents(rs, es) by {
      forall i | 0 <= i < |rs| ensures rs[i].eventId in Ids(es) {
        if i < |regs| {
          assert rs[i] == regs[i];
        }
      }
    }
    if UniqueIds(es) {
      assert UniqueIds(events) by {
        forall i, j | 0 <= i < j < |events| ensures events[i].id != events[j].id {
          assert Ids(es)[i] == es[i].id && Ids(es)[j] == es[j].id;
        }
      }
      assert rs[..|rs| - 1] == regs;
      assert InSync(es, rs);
      forall i | 0 <= i < |es| ensures |es[i].registeredUsers| <= Seats(es[i]) {
        if events[i].id == selected.id {
          var k :| 0 <= k < |events| && events[k] == selected;
          assert i == k;
        }
      }
    }
  }
}
