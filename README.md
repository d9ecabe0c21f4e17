# Event planner state model

A Dafny model of the in-memory core of the `EventPlanner` React component
(`src/Components/EventPlanner.jsx`): the list of events, the list of
registrations, the current screen (home, events, create, register,
schedule), the selected event and the two forms. The handlers that create
an event, register for the selected event, edit one form field and move
between screens are methods of the class `PlannerState.Planner`. The
derived views are pure functions: the upcoming-events list, the
three-card home preview, the schedule join with its "N/A" fallback, and
the "Full" test on the Register button.

Files and modules:

- `records.dfy`: `Wrappers` (an `Option` type) and `Records`. `Records` holds the event and registration records, the screens, the two forms, reading and setting one form field, and building a new event or registration.
- `upcoming.dfy`: `Upcoming`. The date filter, a stable insertion sort by date, the home preview, and the proof that the result is sorted, complete and stable. The result is also proved to be the unique list with those properties.
- `schedule.dfy`: `Schedule`. The first-match lookup by id, the registration/event join, and the schedule card with its "N/A" cells.
- `bookings.dfy`: `Bookings`. The capacity test and the Register button. It also holds the update that appends a registration to every event with the selected id, and the consistency invariant between the events and the registrations.
- `planner.dfy`: `PlannerState`. The class `Planner` with the handlers, and a client method that plays through creating an event, registering once and reading the schedule.

Dates, ids and timestamps are integers. The component reads them from the
clock. Here the caller passes them in: `id` and `createdAt` to
`CreateEvent`, `id` and `registeredAt` to `RegisterForEvent`, and `now`
to the upcoming-events query. A blank date or capacity in the create form
is `None`.

Points of the code's behaviour worth noting:

- Upcoming events are those with `date >= now`, compared with the current instant, so an event dated earlier today is not upcoming.
- Registering appends the registration to every event whose id equals the selected id. Ids come from the millisecond clock and can collide.
- The Home, Events and My Schedule buttons change only the screen. They keep the selected event.

`Planner.Valid()` is the invariant every handler keeps. It has three parts:

- On the register screen there is a selected event, that event is in the list, and it is not full.
- Every event has its time and location filled in, as the create form demands.
- `Bookings.Consistent` holds. Every registration names an existing event. If event ids are unique, each event's `registeredUsers` equals the global registrations naming it, in order, and no event has more registrants than seats.

## Model

| member | source | states |
|---|---|---|
| Records.Field | src/Components/EventPlanner.jsx:9-17 | each create-form field holds the kind of value its input delivers (text, number or category) |
| Records.SetField | src/Components/EventPlanner.jsx:49 | the named field of the create form takes the new value; every other field keeps its old value |
| Records.DraftByFields | src/Components/EventPlanner.jsx:49 | two create forms that agree on every field are equal, so SetField's field-wise contract fixes its result |
| Records.SetContact | src/Components/EventPlanner.jsx:51 | the named field of the register form takes the new value; the other two keep theirs |
| Records.NewEvent | src/Components/EventPlanner.jsx:57-62 | the new event carries exactly the form's fields (DraftOf gives the form back), the supplied id and creation time, and no registrants |
| Records.NewRegistration | src/Components/EventPlanner.jsx:78-84 | the registration names the selected event's id, copies its title, carries the form's contact fields, the supplied id and the registration time |
| Upcoming.FromDate | src/Components/EventPlanner.jsx:100 | an event is kept exactly when it is in the list and dated at or after `now` |
| Upcoming.FromDateByDate | src/Components/EventPlanner.jsx:100 | for each date on or after `now` the filter keeps all events of that date in order, and it keeps none of an earlier date |
| Upcoming.Insert | src/Components/EventPlanner.jsx:101 | one insertion step of the sort: the result holds the list's events and the inserted one, nothing more or less |
| Upcoming.SortByDate | src/Components/EventPlanner.jsx:101 | the sort returns a permutation of its input |
| Upcoming.SortIsSorted | src/Components/EventPlanner.jsx:101 | the sort returns a list non-decreasing by date |
| Upcoming.SortIsStable | src/Components/EventPlanner.jsx:101 | for every date, the events of that date keep their original relative order |
| Upcoming.UpcomingEvents | src/Components/EventPlanner.jsx:98-102 | the result is sorted by date and holds exactly the events dated at or after `now`; for each such date it holds all of them in original order, and for earlier dates none |
| Upcoming.SortedByDateUnique | src/Components/EventPlanner.jsx:101 | two date-sorted lists with the same events, in the same order, on every date are equal |
| Upcoming.UpcomingIsUnique | src/Components/EventPlanner.jsx:98-102 | any sorted list holding the events from `now` on, date by date in original order, is the upcoming list |
| Upcoming.PastEventHidden | src/Components/EventPlanner.jsx:98-102 | an event dated before `now` is neither in the upcoming list nor in the home preview |
| Upcoming.Preview | src/Components/EventPlanner.jsx:145 | the preview is the first min(3, n) upcoming events; each is upcoming, and any upcoming event dated before a shown one is shown too |
| Upcoming.PrefixHoldsSoonest | src/Components/EventPlanner.jsx:145 | a prefix of a date-sorted list contains every element dated strictly before one of its own |
| Schedule.FirstWithId | src/Components/EventPlanner.jsx:106 | the position found has the id and no earlier event has it, or no event has it |
| Schedule.FindById | src/Components/EventPlanner.jsx:106 | the lookup finds nothing exactly when no event has the id; otherwise it returns the first event with the id |
| Schedule.FindsTheEvent | src/Components/EventPlanner.jsx:106 | with unique ids, looking up an event's id returns that event |
| Schedule.UserRegistrations | src/Components/EventPlanner.jsx:104-109 | one entry per registration in the same order, each joined with the first event it names, or with nothing exactly when no event has that id |
| Schedule.OrNotAvailable | src/Components/EventPlanner.jsx:390-391 | the fallback to "N/A": "N/A" exactly when the value is the empty string, otherwise the value itself |
| Schedule.CardOf | src/Components/EventPlanner.jsx:387-392 | the title comes from the registration; the date is "N/A" exactly when the event is missing; time and location are "N/A" when the event is missing or the value is empty |
| Schedule.DanglingRegistrationShowsNotAvailable | src/Components/EventPlanner.jsx:389-391 | a registration whose event is gone gets a card with its own title and "N/A" for date, time and location |
| Bookings.IsFull | src/Components/EventPlanner.jsx:191-193 | an event is full exactly when its registrants fill all its seats (a negative capacity offers none) |
| Bookings.ButtonFor | src/Components/EventPlanner.jsx:191-193 | the Register button is disabled, and reads "Full", exactly when registrants reach the capacity; otherwise it reads "Register" |
| Bookings.LastSeatBoundary | src/Components/EventPlanner.jsx:191-193 | at capacity - 1 registrants the button is enabled, and at capacity it is disabled |
| Bookings.Registered | src/Components/EventPlanner.jsx:89 | the same event, every other field unchanged, with the registration appended after the earlier registrants |
| Bookings.TakingASeat | src/Components/EventPlanner.jsx:89 | adding one registrant to an event that is not full makes it full exactly when that was the last seat |
| Bookings.AddRegistrant | src/Components/EventPlanner.jsx:87-91 | registering keeps the list of events at the same length |
| Bookings.AddRegistrantAt | src/Components/EventPlanner.jsx:87-91 | position by position, every event with the selected id gains the registration at the end of its registrants; all its other fields and all other events are unchanged |
| Bookings.AddRegistrantKeepsFilled | src/Components/EventPlanner.jsx:87-91 | registering leaves every event's time and location filled in |
| Bookings.AddRegistrantKeepsIds | src/Components/EventPlanner.jsx:87-91 | registering leaves the sequence of event ids unchanged |
| Bookings.RegistrantsGrowByMatches | src/Components/EventPlanner.jsx:87-91 | the total number of registrants grows by the number of events carrying the selected id |
| Bookings.UniqueIdMatchesOnce | src/Components/EventPlanner.jsx:88 | with unique ids, exactly one event carries a listed event's id |
| Bookings.RegisteringAddsOne | src/Components/EventPlanner.jsx:86-91 | with unique ids, registering adds exactly one registrant in all, at the end of the selected event's list |
| Bookings.NothingRefersTo | src/Components/EventPlanner.jsx:80 | if every registration names a listed event, no registration names an id that is not listed |
| Bookings.CreateKeepsConsistent | src/Components/EventPlanner.jsx:57-63 | appending an event with no registrants keeps the lists consistent |
| Bookings.RegisterKeepsConsistent | src/Components/EventPlanner.jsx:78-91 | registering for a listed event that is not full keeps the lists consistent, so with unique ids the copies stay equal and nobody is overbooked |
| PlannerState.Planner.constructor | src/Components/EventPlanner.jsx:5-22 | the initial state: no events or registrations, the home screen, nothing selected, both forms empty, category "conference" |
| PlannerState.Planner.HandleInputChange | src/Components/EventPlanner.jsx:46-53 | only the named field of the chosen form changes; the other form, the lists, the screen and the selection are unchanged |
| PlannerState.Planner.CreateEvent | src/Components/EventPlanner.jsx:55-74 | exactly one new event is appended after the unchanged old ones; the form is reset; the screen becomes the event list; the rest is unchanged; the invariant is kept |
| PlannerState.Planner.RegisterForEvent | src/Components/EventPlanner.jsx:76-96 | one registration is appended to the global list and to every event with the selected id; the form and the selection are cleared; the screen becomes the schedule; the invariant is kept |
| PlannerState.Planner.SelectEvent | src/Components/EventPlanner.jsx:187-190 | selecting an event that is not full stores it and shows the register screen; nothing else changes |
| PlannerState.Planner.CancelRegistration | src/Components/EventPlanner.jsx:369-372 | cancel clears the selection and shows the event list; nothing else changes |
| PlannerState.Planner.ShowView | src/Components/EventPlanner.jsx:419-436 | navigation changes only the screen; the selection and both forms are kept |
| PlannerState.EveryEntryFindsItsEvent | src/Components/EventPlanner.jsx:104-109 | in a consistent state every schedule entry finds its event, so no card shows "N/A" for the date |
| PlannerState.NoCardShowsNotAvailable | src/Components/EventPlanner.jsx:387-392 | in a state the handlers keep, every card shows its date, time and location; "N/A" arises only from data changed outside the component |
| PlannerState.CreateLaunch | src/Components/EventPlanner.jsx:46-74 | filling in every input of the create form and submitting leaves exactly the one event built from those values, with nobody registered |
| PlannerState.BookLaunch | src/Components/EventPlanner.jsx:76-96 | selecting that one-seat event and registering once makes it full and leaves one registration naming it |
| PlannerState.LaunchScenario | src/Components/EventPlanner.jsx:55-109 | creating "Launch" dated after `now` with capacity 1 and registering once lists it as the only upcoming event, disables its button and gives one "Launch" entry in the schedule |

## Left out

- Loading from and saving to `localStorage`, and the JSON encoding (lines 25-44). These are browser I/O. Saving has no effect on the modelled state. A load would replace the lists wholesale, so `Consistent` is established only for the empty initial state.
- The clock. `Date.now()` and `new Date()` give ids, timestamps and `now`; here they are parameters.
- Date strings and their parsing, `toLocaleDateString`, and invalid (NaN) dates. Dates are integers compared with `>=`.
- `parseInt` on the capacity and the optional chaining on `registeredUsers`. Capacity is an integer, and `registeredUsers` is always present.
- Markup, styling, `e.preventDefault()` and the browser's own form validation. That validation appears only as preconditions. `CreateEvent` requires the form's `required` inputs (title, description, date, time, location and capacity, lines 219-282) to be filled in. `SelectEvent` requires the event not to be full (the button is disabled). `RegisterForEvent` requires the register screen (its form is shown only there). `ShowView` excludes the register screen (no plain navigation opens it).
- The `required` inputs of the register form (name, email and phone, lines 336-360) are not a precondition of `RegisterForEvent`. No modelled property depends on them, and the schedule card does not show them.
- `min="1"` on the capacity input is not modelled. A capacity below one is allowed, and such an event is full from the start.
- Records.SetField: form values are typed (text, number or category). The component spreads any `name` into the form object; the model covers only the form's own inputs.
- Bookings.Consistent: the consistency of the two registration lists and the absence of overbooking are stated only for unique event ids. Ids come from the clock, so the component does not guarantee them.
