/** The rows of the database tables the dashboard reads, and the enumerated
    column types of the `public` schema. A nullable column is an `Option`;
    timestamps are kept as the text the database returns. */
module Schema {
  import opened Js

  datatype TaskStatus = Pending | Confirmed | InProgress | Cancelled | Completed
  datatype TaskType = Cleaning | Maintenance | Inspection | OtherType
  datatype ChatSender = SystemSender | UserSender | AgentSender | PartnerSender
  datatype ChatSource = App | Email | Sms | OtherSource

  /** The text the database uses for a task status. */
  function StatusName(s: TaskStatus): string
  {
    match s
    case Pending => "pending"
    case Confirmed => "confirmed"
    case InProgress => "in_progress"
    case Cancelled => "cancelled"
    case Completed => "completed"
  }

  /** The text the database uses for a task type. */
  function TaskTypeName(t: TaskType): string
  {
    match t
    case Cleaning => "cleaning"
    case Maintenance => "maintenance"
    case Inspection => "inspection"
    case OtherType => "other"
  }

  datatype Booking = Booking(
    id: string,
    guestName: string,
    guestEmail: string,
    propertyId: string,
    checkIn: string,
    checkOut: string,
    createdAt: Option<string>,
    updatedAt: Option<string>)

  datatype Task = Task(
    id: string,
    taskDescription: string,
    kind: TaskType,
    status: TaskStatus,
    propertyId: string,
    bookingId: Option<string>,
    partnerId: Option<string>,
    dueDate: Option<string>,
    startDate: Option<string>,
    endDate: Option<string>,
    canStartAfter: Option<string>,
    createdAt: Option<string>,
    updatedAt: Option<string>)

  datatype ChatMessage = ChatMessage(
    id: string,
    bookingId: Option<string>,
    taskId: Option<string>,
    message: string,
    sender: ChatSender,
    source: ChatSource,
    createdAt: Option<string>,
    updatedAt: Option<string>)

  datatype Partner = Partner(
    id: string,
    name: string,
    email: string,
    phone: Option<string>,
    kind: TaskType,
    createdAt: Option<string>,
    updatedAt: Option<string>)

  datatype Property = Property(
    id: string,
    address: string,
    wifiSsid: Option<string>,
    wifiPassword: Option<string>,
    accessInstructions: Option<string>,
    createdAt: Option<string>,
    updatedAt: Option<string>)

  datatype Faq = Faq(
    id: string,
    question: string,
    answer: string,
    propertyId: Option<string>,
    createdAt: Option<string>,
    updatedAt: Option<string>)

  /** The result of a database query: `{ data, error }`. */
  datatype QueryResult<T> = QueryResult(data: Option<seq<T>>, error: Option<string>)
}
