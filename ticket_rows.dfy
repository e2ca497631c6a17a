/** The rows of the two ticket tables, `tickets` and `tickets_trash`, which
    have the same columns apart from the internal id (the id is the key of
    the map that holds a row, see module Tickets). */
module TicketRows {

  datatype Option<T> = None | Some(value: T)

  /** The id of a row of `users`; the `owner` column of a ticket. */
  type UserId = nat

  type Uuid = string

  /** LOCATION_TABLE and LOCATION_TRASH: which of the two tables a tag or a
      permission means when it refers to a ticket id. */
  datatype Location = Table | Trash

  /** One SQL cell of a payload column. The trashcan protocol never looks
      inside these cells; it only copies them. */
  datatype Cell = Null | Value(text: string)

  /** The ticket-specific columns that INSERT ... SELECT copies verbatim
      between the two tables. */
  datatype Payload = Payload(
    task: Cell, report: Cell, severity: Cell, host: Cell, location: Cell,
    solutionType: Cell, assignedTo: Cell, status: Cell, openTime: Cell,
    solvedTime: Cell, solvedComment: Cell, confirmedTime: Cell,
    confirmedResult: Cell, closedTime: Cell, closedRationale: Cell,
    orphanedTime: Cell)

  /** The payload of a ticket made by create_ticket: its INSERT does not
      name these columns, so they keep their defaults, taken here as NULL. */
  const NO_PAYLOAD := Payload(Null, Null, Null, Null, Null, Null, Null, Null,
                              Null, Null, Null, Null, Null, Null, Null, Null)

  /** Every column of a ticket row except its id. */
  datatype Ticket = Ticket(
    uuid: Uuid,
    owner: UserId,
    name: string,
    comment: string,
    payload: Payload,
    creationTime: int,
    modificationTime: int)
}
