/**
 * The records the trip app stores and shows. Every identifier is a string;
 * money is an exact `real` (the app's `number`, without floating-point rounding).
 * Optional TypeScript properties (`avatar_url?`, `image_url?`, ...) are `Option`s.
 */
module Types {
  import opened Collections

  type Id = string

  datatype TripStatus = Active | Finished | Archived

  datatype TripRole = Admin | Editor | Viewer

  datatype ActivityStatus = Pending | Done | Rescheduled

  datatype User = User(id: Id, email: string, name: string, avatarUrl: Option<string>)

  datatype Trip = Trip(
    id: Id,
    name: string,
    destination: string,
    startDate: string,
    endDate: string,
    status: TripStatus,
    createdAt: string,
    imageUrl: Option<string>)

  /** Links a user to a trip with a role. */
  datatype TripMember = TripMember(id: Id, tripId: Id, userId: Id, role: TripRole)

  /** An expense paid by `payerId` and shared equally by every entry of `participants`. */
  datatype Expense = Expense(
    id: Id,
    tripId: Id,
    payerId: Id,
    amount: real,
    description: string,
    date: string,
    category: string,
    participants: seq<Id>)

  datatype Payment = Payment(id: Id, tripId: Id, fromId: Id, toId: Id, amount: real, date: string)

  datatype Activity = Activity(
    id: Id,
    tripId: Id,
    title: string,
    description: Option<string>,
    date: string,
    time: Option<string>,
    status: ActivityStatus,
    participants: Option<seq<Id>>)

  /**
   * A stored document. `kind` is the stored `type` string; the app writes one of
   * 'ticket', 'reservation', 'insurance', 'other', but reads whatever is stored.
   */
  datatype Document = Document(id: Id, tripId: Id, name: string, kind: string, url: string, date: string)
}
