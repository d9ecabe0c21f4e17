/**
  The state of the EventPlanner component and its handlers. Each React
  state cell is a field of `Planner`; each handler is a method that
  overwrites those fields in the order the component calls its setters.
  `Valid()` is what every handler keeps true: the register screen always
  has a selected event that is listed and not full, every event has its
  time and location filled in, and the two lists of registrations are
  consistent.
*/
module PlannerState {
  import opened Wrappers
  import opened Records
  import opened Upcoming
  import opened Schedule
  import opened Bookings

  /** An `onChange` from one form input: its `name`, its `value`, and
      whether it belongs to the create form or the register form. */
  datatype InputChange =
    | EventInput(field: EventField, value: FieldValue)
    | RegistrationInput(contactField: ContactField, text: string)

  class Planner {
    var events: seq<Event>
    var registrations: seq<Registration>
    var currentView: View
    var selectedEvent: Option<Event>
    var formData: EventDraft
    var registrationData: RegistrationDraft

    ghost predicate Valid()
      reads this
    {
      && (currentView == RegisterView ==>
            selectedEvent.Some? && selectedEvent.value in events && !IsFull(selectedEvent.value))
      && AllFilled(events)
      && Consistent(events, registrations)
    }

    /** The initial state: no events, no registrations, the home screen,
        nothing selected and both forms empty. */
    constructor ()
      ensures Valid()
      ensures events == [] && registrations == []
      ensures currentView == HomeView && selectedEvent == None
      ensures formData == EmptyEventDraft && registrationData == EmptyRegistrationDraft
    {
      events := [];
      registrations := [];
      currentView := HomeView;
      selectedEvent := None;
      formData := EmptyEventDraft;
      registrationData := EmptyRegistrationDraft;
    }

    /** handleInputChange: the named field of the chosen form takes the new
        value; the other form and the rest of the state are untouched. */
    method HandleInputChange(change: InputChange)
      requires Valid()
      requires change.EventInput? ==> Fits(change.field, change.value)
      modifies this
      ensures Valid()
      ensures change.EventInput? ==>
        formData == SetField(old(formData), change.field, change.value) &&
        registrationData == old(registrationData)
      ensures change.RegistrationInput? ==>
        registrationData == SetContact(old(registrationData), change.contactField, change.text) &&
        formData == old(formData)
      ensures events == old(events) && registrations == old(registrations)
      ensures currentView == old(currentView) && selectedEvent == old(selectedEvent)
    {
      match change
      case EventInput(f, v) =>
        formData := SetField(formData, f, v);
      case RegistrationInput(f, s) =>
        registrationData := SetContact(registrationData, f, s);
    }

    /** handleCreateEvent: appends one event built from the form, the id
        and the creation time; resets the form; shows the event list. */
    method CreateEvent(id: int, createdAt: int)
      requires Valid() && Ready(formData)
      modifies this
      ensures Valid()
      ensures events == old(events) + [NewEvent(old(formData), id, createdAt)]
      ensures formData == EmptyEventDraft && currentView == EventsView
      ensures registrations == old(registrations) && selectedEvent == old(selectedEvent)
      ensures registrationData == old(registrationData)
    {
      var newEvent := NewEvent(formData, id, createdAt);
      CreateKeepsConsistent(events, registrations, newEvent);
      events := events + [newEvent];
      formData := EmptyEventDraft;
      currentView := EventsView;
    }

    /** handleRegisterForEvent, submitted from the register screen: appends
        one registration for the selected event to the global list and to
        every event with the selected id; clears the form and the
        selection; shows the schedule. On the register screen an event is
        always selected, so the handler never meets a null selection. */
    method RegisterForEvent(id: int, registeredAt: int)
      requires Valid() && currentView == RegisterView
      modifies this
      ensures Valid()
      ensures var r := NewRegistration(old(selectedEvent).value, old(registrationData), id, registeredAt);
        && registrations == old(registrations) + [r]
        && events == AddRegistrant(old(events), old(selectedEvent).value.id, r)
      ensures registrationData == EmptyRegistrationDraft && selectedEvent == None
      ensures currentView == ScheduleView && formData == old(formData)
    {
      var selected := selectedEvent.value;
      var registration := NewRegistration(selected, registrationData, id, registeredAt);
      var newRegistrations := registrations + [registration];
      var newEvents := AddRegistrant(events, selected.id, registration);
      RegisterKeepsConsistent(events, registrations, selected, registration);
      AddRegistrantKeepsFilled(events, selected.id, registration);
      registrations := newRegistrations;
      events := newEvents;
      registrationData := EmptyRegistrationDraft;
      selectedEvent := None;
      currentView := ScheduleView;
    }

    /** The Register button of the i-th event card (clickable only when the
        event is not full): selects that event and shows the register
        screen. */
    method SelectEvent(i: nat)
      requires Valid() && i < |events| && !IsFull(events[i])
      modifies this
      ensures Valid()
      ensures events == old(events) && registrations == old(registrations)
      ensures selectedEvent == Some(events[i]) && currentView == RegisterView
      ensures formData == old(formData) && registrationData == old(registrationData)
    {
      selectedEvent := Some(events[i]);
      currentView := RegisterView;
    }

    /** Cancel on the register screen: drops the selection and shows the
        event list. */
    method CancelRegistration()
      requires Valid()
      modifies this
      ensures Valid()
      ensures selectedEvent == None && currentView == EventsView
      ensures events == old(events) && registrations == old(registrations)
      ensures formData == old(formData) && registrationData == old(registrationData)
    {
      selectedEvent := None;
      currentView := EventsView;
    }

    /** Every plain `setCurrentView(v)`: the Home, Events and My Schedule
        buttons, "Explore Events", "Create Event", Cancel on the create
        screen and "Browse Events". Only the screen changes; the selection
        and both forms are kept. No button opens the register screen this
        way. */
    method ShowView(v: View)
      requires Valid() && v != RegisterView
      modifies this
      ensures Valid()
      ensures currentView == v
      ensures events == old(events) && registrations == old(registrations)
      ensures selectedEvent == old(selectedEvent)
      ensures formData == old(formData) && registrationData == old(registrationData)
    {
      currentView := v;
    }
  }

  /** In a consistent state every registration finds its event, so no
      card of the schedule shows "N/A" for the date. */
  lemma EveryEntryFindsItsEvent(events: seq<Event>, regs: seq<Registration>)
    requires Consistent(events, regs)
    ensures forall i :: 0 <= i < |regs| ==> UserRegistrations(regs, events)[i].event.Some?
  {
  }

  /** In a state the handlers keep, every card of the schedule shows its
      date, time and location: "N/A" appears only for data changed outside
      the component. */
  lemma NoCardShowsNotAvailable(events: seq<Event>, regs: seq<Registration>)
    requires Consistent(events, regs) && AllFilled(events)
    ensures forall i :: 0 <= i < |regs| ==>
      var c := CardOf(UserRegistrations(regs, events)[i]);
      c.date.Shown? && c.time.Shown? && c.location.Shown?
  {
  }

  /** Opens the create screen, fills in every input for "Launch", dated
      after `now` with one seat, and submits: the event list holds exactly
      that event, with nobody registered. */
  method CreateLaunch(now: int, eventId: int, createdAt: int) returns (p: Planner)
    ensures fresh(p) && p.Valid()
    ensures p.events ==
      [Event(eventId, "Launch", "Product launch", now + 1, "18:00", "Main hall", 1, Conference, createdAt, [])]
    ensures p.currentView == EventsView && p.registrations == []
  {
    p := new Planner();
    p.ShowView(EventsView);
    p.ShowView(CreateView);
    p.HandleInputChange(EventInput(TitleField, Text("Launch")));
    p.HandleInputChange(EventInput(DescriptionField, Text("Product launch")));
    p.HandleInputChange(EventInput(DateField, Number(Some(now + 1))));
    p.HandleInputChange(EventInput(TimeField, Text("18:00")));
    p.HandleInputChange(EventInput(LocationField, Text("Main hall")));
    p.HandleInputChange(EventInput(CapacityField, Number(Some(1))));
    DraftByFields(p.formData, EventDraft("Launch", "Product launch", Some(now + 1), "18:00", "Main hall", Some(1), Conference));
    p.CreateEvent(eventId, createdAt);
  }

  /** Creates "Launch" as CreateLaunch does, selects it, types a name into
      the register form and submits: the one event has taken its one seat
      and the global list holds the one registration for it. */
  method BookLaunch(now: int, eventId: int, createdAt: int, registrationId: int, registeredAt: int)
    returns (p: Planner)
    ensures fresh(p) && p.Valid()
    ensures |p.events| == 1 && p.events[0].title == "Launch" && p.events[0].date == now + 1
    ensures IsFull(p.events[0])
    ensures |p.registrations| == 1 && p.registrations[0].eventId == eventId
    ensures p.registrations[0].eventTitle == "Launch"
  {
    p := CreateLaunch(now, eventId, createdAt);
    var launch := p.events[0];
    p.SelectEvent(0);
    p.HandleInputChange(RegistrationInput(NameField, "Ada"));
    p.RegisterForEvent(registrationId, registeredAt);
    assert p.events == [Registered(launch, p.registrations[0])];
  }

  /** Create an event "Launch" dated after `now` with one seat, register
      once: the event is listed as upcoming, its Register button is
      disabled, and the schedule holds one entry titled "Launch". */
  method LaunchScenario(now: int, eventId: int, createdAt: int, registrationId: int, registeredAt: int)
    returns (listed: seq<Event>, registerDisabled: bool, schedule: seq<ScheduleEntry>)
    ensures |listed| == 1 && listed[0].title == "Launch" && listed[0].date == now + 1
    ensures registerDisabled
    ensures |schedule| == 1 && schedule[0].registration.eventTitle == "Launch"
    ensures schedule[0].event.Some? && schedule[0].event.value.title == "Launch"
  {
    var p := BookLaunch(now, eventId, createdAt, registrationId, registeredAt);
    var events, registrations := p.events, p.registrations;
    assert events == [events[0]];
    listed := UpcomingEvents(events, now);
    UpcomingIsUnique(events, now, events);
    registerDisabled := ButtonFor(events[0]).disabled;
    FindsTheEvent(events, 0);
    schedule := UserRegistrations(registrations, events);
  }
}
