/** The records the admin pages exchange (src/lib/types/adminTypes.ts). */
module AdminTypes {

  /** The five reservation states; the names are the source's string tags. */
  datatype Status = WaitingApprove | OnGoing | Completed | CanceledByUser | CanceledByAdmin

  /** A reservation as the admin API delivers it; `dateTime` is "YYYY-MM-DD HH:MM". */
  datatype Reservation = Reservation(
    id: string,
    customer: string,
    invoice: string,
    dateTime: string,
    status: Status,
    amount: int)

  /** The three haircut lengths a catalogue entry can be. */
  datatype CatalogueType = Long | Short | Medium
}
