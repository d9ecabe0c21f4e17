/** The optional value used for `selectedEvent`, for blank numeric form
    fields and for the result of a lookup by id. */
module Wrappers {
  datatype Option<+T> = None | Some(value: T)
}

/**
  The records of the event planner: events, registrations, the five
  screens, and the two draft forms that the create and register screens
  edit. Dates, ids and timestamps are plain integers; the component reads
  them from the clock, the model takes them as parameters.
*/
module Records {
  import opened Wrappers

  datatype Category = Conference | Workshop | Seminar | Networking | Social | Other

  /** The screens 'home', 'events', 'create', 'register' and 'schedule'. */
  datatype View = HomeView | EventsView | CreateView | RegisterView | ScheduleView

  datatype Registration = Registration(
    id: int,
    eventId: int,
    eventTitle: string,
    name: string,
    email: string,
    phone: string,
    registeredAt: int)

  datatype Event = Event(
    id: int,
    title: string,
    description: string,
    date: int,
    time: string,
    location: string,
    capacity: int,
    category: Category,
    createdAt: int,
    registeredUsers: seq<Registration>)

  /** The create form (`formData`). A blank date or capacity is `None`. */
  datatype EventDraft = EventDraft(
    title: string,
    description: string,
    date: Option<int>,
    time: string,
    location: string,
    capacity: Option<int>,
    category: Category)

  /** The register form (`registrationData`). */
  datatype RegistrationDraft = RegistrationDraft(name: string, email: string, phone: string)

  /** The create form as it starts and as it is reset after a submit. */
  const EmptyEventDraft := EventDraft("", "", None, "", "", None, Conference)

  /** The register form as it starts and as it is reset after a submit. */
  const EmptyRegistrationDraft := RegistrationDraft("", "", "")

  /** The `name` attribute of each input of the create form. */
  datatype EventField =
    TitleField | DescriptionField | DateField | TimeField | LocationField | CapacityField | CategoryField

  /** The `value` an input of the create form delivers: text, a number
      (date or capacity, blank as `None`) or a category choice. */
  datatype FieldValue = Text(text: string) | Number(number: Option<int>) | Choice(choice: Category)

  /** The name attribute of each input of the register form. */
  datatype ContactField = NameField | EmailField | PhoneField

  /** The kind of value each create-form input delivers. */
  predicate Fits(f: EventField, v: FieldValue) {
    match f
    case DateField => v.Number?
    case CapacityField => v.Number?
    case CategoryField => v.Choice?
    case _ => v.Text?
  }

  /** Reads one field of the create form. */
  function Field(d: EventDraft, f: EventField): (v: FieldValue)
    ensures Fits(f, v)
  {
    match f
    case TitleField => Text(d.title)
    case DescriptionField => Text(d.description)
    case DateField => Number(d.date)
    case TimeField => Text(d.time)
    case LocationField => Text(d.location)
    case CapacityField => Number(d.capacity)
    case CategoryField => Choice(d.category)
  }

  /** `{ ...prev, [name]: value }` on the create form: the named field
      takes the new value and every other field keeps its old one. */
  function SetField(d: EventDraft, f: EventField, v: FieldValue): (r: EventDraft)
    requires Fits(f, v)
    ensures forall g :: Field(r, g) == if g == f then v else Field(d, g)
  {
    match f
    case TitleField => d.(title := v.text)
    case DescriptionField => d.(description := v.text)
    case DateField => d.(date := v.number)
    case TimeField => d.(time := v.text)
    case LocationField => d.(location := v.text)
    case CapacityField => d.(capacity := v.number)
    case CategoryField => d.(category := v.choice)
  }

  /** Two create forms that agree on every field are the same form, so
      the field-wise contract of SetField determines its result. */
  lemma {:induction false} DraftByFields(a: EventDraft, b: EventDraft)
    requires forall g :: Field(a, g) == Field(b, g)
    ensures a == b
  {
    assert Field(a, TitleField) == Field(b, TitleField);
    assert Field(a, DescriptionField) == Field(b, DescriptionField);
    assert Field(a, DateField) == Field(b, DateField);
    assert Field(a, TimeField) == Field(b, TimeField);
    assert Field(a, LocationField) == Field(b, LocationField);
    assert Field(a, CapacityField) == Field(b, CapacityField);
    assert Field(a, CategoryField) == Field(b, CategoryField);
  }

  /** Reads one field of the register form. */
  function Contact(d: RegistrationDraft, f: ContactField): string {
    match f
    case NameField => d.name
    case EmailField => d.email
    case PhoneField => d.phone
  }

  /** `{ ...prev, [name]: value }` on the register form. */
  function SetContact(d: RegistrationDraft, f: ContactField, v: string): (r: RegistrationDraft)
    ensures forall g :: Contact(r, g) == if g == f then v else Contact(d, g)
  {
    match f
    case NameField => d.(name := v)
    case EmailField => d.(email := v)
    case PhoneField => d.(phone := v)
  }

  /** The browser only submits the create form when every `required`
      input is filled in: title, description, date, time, location and
      capacity. The category select always holds a value. */
  predicate Ready(d: EventDraft) {
    && d.title != "" && d.description != "" && d.date.Some?
    && d.time != "" && d.location != "" && d.capacity.Some?
  }

  /** An event whose time and location are filled in, as the create form
      demands of every event it submits. */
  predicate Filled(e: Event) {
    e.time != "" && e.location != ""
  }

  /** Every event of the list is filled in. */
  ghost predicate AllFilled(es: seq<Event>) {
    forall i :: 0 <= i < |es| ==> Filled(es[i])
  }

  /** The ids of the events, in order. */
  function Ids(es: seq<Event>): seq<int> {
    seq(|es|, i requires 0 <= i < |es| => es[i].id)
  }

  /** No two events share an id. Ids come from the clock, so the component
      does not guarantee this; several properties hold only under it. */
  ghost predicate UniqueIds(es: seq<Event>) {
    forall i, j :: 0 <= i < j < |es| ==> es[i].id != es[j].id
  }

  /** The form fields an event was created from. */
  function DraftOf(e: Event): EventDraft {
    EventDraft(e.title, e.description, Some(e.date), e.time, e.location, Some(e.capacity), e.category)
  }

  /** The contact fields a registration was created from. */
  function ContactOf(r: Registration): RegistrationDraft {
    RegistrationDraft(r.name, r.email, r.phone)
  }

  /** The event built by handleCreateEvent from the submitted form, the
      id and the creation time: it carries the form's fields exactly and
      nobody is registered for it yet. */
  function NewEvent(d: EventDraft, id: int, createdAt: int): (e: Event)
    requires Ready(d)
    ensures DraftOf(e) == d
    ensures e.id == id && e.createdAt == createdAt && e.registeredUsers == []
    ensures Filled(e)
  {
    Event(id, d.title, d.description, d.date.value, d.time, d.location, d.capacity.value,
          d.category, createdAt, [])
  }

  /** The registration built by handleRegisterForEvent: it points at the
      selected event, copies that event's title and carries the contact
      fields of the form. */
  function NewRegistration(selected: Event, d: RegistrationDraft, id: int, registeredAt: int): (r: Registration)
    ensures r.eventId == selected.id && r.eventTitle == selected.title
    ensures ContactOf(r) == d
    ensures r.id == id && r.registeredAt == registeredAt
  {
    Registration(id, selected.id, selected.title, d.name, d.email, d.phone, registeredAt)
  }
}
