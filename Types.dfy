/**
 * The closed enumerations and record shapes shared by the store and the ingestion flow
 * (constants/Types.ts). TypeScript string unions become datatypes; their text forms are
 * given by `Name` functions and recognised by `Parse` functions.
 */
module Types {
  import opened Wrappers

  /** `'appointment' | 'medication' | 'reminder'` */
  datatype EventType = Appointment | Medication | Reminder

  /** `'pending' | 'completed' | 'cancelled'`: the optional status of an event. */
  datatype EventStatus = Pending | Completed | Cancelled

  /** `'processing' | 'completed' | 'failed'` */
  datatype DocumentStatus = Processing | Completed | Failed

  /** A calendar event: `id`, `title`, `date` (ISO text) and `type` are required. */
  datatype MedicalEvent = MedicalEvent(
    id: string,
    title: string,
    date: string,
    eventType: EventType,
    description: Option<string>,
    location: Option<string>,
    status: Option<EventStatus>)

  /**
   * A stored document reference: `id`, `uri`, `name`, `uploadDate` (ISO text) and `status` are
   * required. An embedding element is a JavaScript number, kept as an opaque `real`.
   */
  datatype MedicalDocument = MedicalDocument(
    id: string,
    uri: string,
    name: string,
    uploadDate: string,
    status: DocumentStatus,
    summary: Option<string>,
    category: Option<string>,
    context: Option<string>,
    embedding: Option<seq<real>>,
    extractedEvents: Option<seq<MedicalEvent>>)

  function EventTypeName(t: EventType): string {
    match t
    case Appointment => "appointment"
    case Medication => "medication"
    case Reminder => "reminder"
  }

  /** Recognises exactly the three event type names and inverts `EventTypeName`. */
  function ParseEventType(s: string): (r: Option<EventType>)
    ensures r.Some? <==> s == "appointment" || s == "medication" || s == "reminder"
    ensures r.Some? ==> EventTypeName(r.value) == s
  {
    if s == "appointment" then Some(Appointment)
    else if s == "medication" then Some(Medication)
    else if s == "reminder" then Some(Reminder)
    else None
  }

  function EventStatusName(st: EventStatus): string {
    match st
    case Pending => "pending"
    case Completed => "completed"
    case Cancelled => "cancelled"
  }

  /** Recognises exactly the three event status names and inverts `EventStatusName`. */
  function ParseEventStatus(s: string): (r: Option<EventStatus>)
    ensures r.Some? <==> s == "pending" || s == "completed" || s == "cancelled"
    ensures r.Some? ==> EventStatusName(r.value) == s
  {
    if s == "pending" then Some(Pending)
    else if s == "completed" then Some(EventStatus.Completed)
    else if s == "cancelled" then Some(Cancelled)
    else None
  }

  function DocumentStatusName(st: DocumentStatus): string {
    match st
    case Processing => "processing"
    case Completed => "completed"
    case Failed => "failed"
  }

  /** Recognises exactly the three document status names and inverts `DocumentStatusName`. */
  function ParseDocumentStatus(s: string): (r: Option<DocumentStatus>)
    ensures r.Some? <==> s == "processing" || s == "completed" || s == "failed"
    ensures r.Some? ==> DocumentStatusName(r.value) == s
  {
    if s == "processing" then Some(Processing)
    else if s == "completed" then Some(DocumentStatus.Completed)
    else if s == "failed" then Some(Failed)
    else None
  }

  /** Each name function is one-to-one, so each union has exactly three distinct members. */
  lemma NamesRoundTrip(t: EventType, st: EventStatus, ds: DocumentStatus)
    ensures ParseEventType(EventTypeName(t)) == Some(t)
    ensures ParseEventStatus(EventStatusName(st)) == Some(st)
    ensures ParseDocumentStatus(DocumentStatusName(ds)) == Some(ds)
  {
  }
}
