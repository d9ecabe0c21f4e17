/**
  The "My Schedule" screen: getUserRegistrations pairs every registration
  with the first event whose id equals its `eventId` (or with nothing),
  and each card shows "N/A" for what it cannot read from that event.
*/
module Schedule {
  import opened Wrappers
  import opened Records

  /** The position of the first event with id `id`, or |events| if there
      is none. */
  function FirstWithId(events: seq<Event>, id: int): (k: nat)
    ensures k <= |events|
    ensures forall j :: 0 <= j < k ==> events[j].id != id
    ensures k < |events| ==> events[k].id == id
  {
    if events == [] then 0
    else if events[0].id == id then 0
    else 1 + FirstWithId(events[1..], id)
  }

  /** `events.find(e => e.id === id)`. */
  function FindById(events: seq<Event>, id: int): (r: Option<Event>)
    ensures r.None? <==> forall e :: e in events ==> e.id != id
    ensures r.Some? ==> exists k :: 0 <= k < |events| && events[k] == r.value && events[k].id == id &&
                                    forall j :: 0 <= j < k ==> events[j].id != id
  {
    var k := FirstWithId(events, id);
    if k < |events| then Some(events[k]) else None
  }

  /** When ids are unique, the lookup finds the one event with that id. */
  lemma FindsTheEvent(events: seq<Event>, i: nat)
    requires UniqueIds(events) && i < |events|
    ensures FindById(events, events[i].id) == Some(events[i])
  {
  }

  /** One row of getUserRegistrations: `{ ...reg, event }`. */
  datatype ScheduleEntry = ScheduleEntry(registration: Registration, event: Option<Event>)

  /** getUserRegistrations: one entry per registration, in the same order,
      each joined with the event it names if that event is still there. */
  function UserRegistrations(regs: seq<Registration>, events: seq<Event>): (r: seq<ScheduleEntry>)
    ensures |r| == |regs|
    ensures forall i :: 0 <= i < |regs| ==>
      r[i].registration == regs[i] && r[i].event == FindById(events, regs[i].eventId)
    ensures forall i :: 0 <= i < |regs| ==>
      (r[i].event.None? <==> forall e :: e in events ==> e.id != regs[i].eventId) &&
      (r[i].event.Some? ==> r[i].event.value in events && r[i].event.value.id == regs[i].eventId)
  {
    seq(|regs|, i requires 0 <= i < |regs| => ScheduleEntry(regs[i], FindById(events, regs[i].eventId)))
  }

  /** What a card shows in one detail line: a value, or "N/A". */
  datatype Cell<T> = Shown(value: T) | NotAvailable

  /** A registration card: title, date, time, location and registration
      time. */
  datatype ScheduleCard = ScheduleCard(
    title: string,
    date: Cell<int>,
    time: Cell<string>,
    location: Cell<string>,
    registeredAt: int)

  /** `value || 'N/A'`: an empty string also falls back to "N/A". */
  function OrNotAvailable(s: string): (c: Cell<string>)
    ensures c.NotAvailable? <==> s == ""
    ensures c.Shown? ==> c.value == s
  {
    if s == "" then NotAvailable else Shown(s)
  }

  /** The card for one entry. The date is "N/A" exactly when the event is
      missing; time and location are "N/A" also when the event has them
      empty. The title always comes from the registration's own copy. */
  function CardOf(entry: ScheduleEntry): (c: ScheduleCard)
    ensures c.title == entry.registration.eventTitle
    ensures c.registeredAt == entry.registration.registeredAt
    ensures c.date.NotAvailable? <==> entry.event.None?
    ensures c.date.Shown? ==> c.date.value == entry.event.value.date
    ensures c.time.NotAvailable? <==> entry.event.None? || entry.event.value.time == ""
    ensures c.time.Shown? ==> c.time.value == entry.event.value.time
    ensures c.location.NotAvailable? <==> entry.event.None? || entry.event.value.location == ""
    ensures c.location.Shown? ==> c.location.value == entry.event.value.location
  {
    match entry.event
    case None =>
      ScheduleCard(entry.registration.eventTitle, NotAvailable, NotAvailable, NotAvailable,
                   entry.registration.registeredAt)
    case Some(e) =>
      ScheduleCard(entry.registration.eventTitle, Shown(e.date), OrNotAvailable(e.time),
                   OrNotAvailable(e.location), entry.registration.registeredAt)
  }

  /** A registration whose event is gone still gets its card, with its own
      title and "N/A" for date, time and location. */
  lemma DanglingRegistrationShowsNotAvailable(regs: seq<Registration>, events: seq<Event>, i: nat)
    requires i < |regs|
    requires forall e :: e in events ==> e.id != regs[i].eventId
    ensures CardOf(UserRegistrations(regs, events)[i]) ==
      ScheduleCard(regs[i].eventTitle, NotAvailable, NotAvailable, NotAvailable, regs[i].registeredAt)
  {
  }
}
