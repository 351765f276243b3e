/** The entries of the chat body: one per appended message element. */
module Log {
  import opened Wrappers
  import opened Request

  /** The state of a bot message: `Pending` while it carries the `thinking` class,
      `Complete` once it shows the reply, `Failed` once it shows an error in red. */
  datatype Status = Pending | Complete | Failed

  datatype Turn =
    | User(text: string, attachment: Option<Attachment>)
    | Bot(status: Status, text: string)
}
