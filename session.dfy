/**
 * The chat controller: the module-global `userData` (the stored message and the
 * staged file), the text field's value, and the chat body as an ordered log of
 * turns. Each event handler of the script is a method; the 600 ms timer, the
 * asynchronous file read and the awaited request are split into separate calls.
 */
module Chat {
  import opened Wrappers
  import opened Text
  import opened Request
  import opened Log
  import opened Reply

  /** A user turn shows an attachment only when that attachment has data. */
  predicate ShowsOnlyData(t: Turn)
  {
    t.User? && t.attachment.Some? ==> t.attachment.value.data != ""
  }

  class Session {
    /** `messageInput.value` */
    var input: string
    /** `userData.message`; `null` before the first send is written `""` */
    var message: string
    /** `userData.file`; both `{data: null, mime_type: null}` and `{}` are `None` */
    var file: Option<Attachment>
    /** the message elements of `chatBody`, in the order they were appended */
    var log: seq<Turn>

    ghost predicate Valid()
      reads this
    {
      forall i | 0 <= i < |log| :: ShowsOnlyData(log[i])
    }

    constructor ()
      ensures Valid()
      ensures input == "" && message == "" && file == None && log == []
    {
      input, message, file, log := "", "", None, [];
    }

    /** `handleOutgoingMessage`, as the send button runs it: no emptiness check. The
        trimmed input becomes the message, the field is cleared and the user turn is
        appended, showing the staged file only if it has data. The file stays staged. */
    method Submit()
      requires Valid()
      modifies this
      ensures Valid()
      ensures message == Trim(old(input)) && input == ""
      ensures file == old(file)
      ensures log == old(log) + [User(message, ShownAttachment(file))]
    {
      var raw := input;
      input := "";
      message := Trim(raw);
      log := log + [User(message, ShownAttachment(file))];
    }

    /** The `keydown` listener: Enter sends only when the trimmed input is non-empty;
        any other key, or Enter on a blank field, changes nothing. */
    method KeyDown(key: string) returns (sent: bool)
      requires Valid()
      modifies this
      ensures Valid()
      ensures sent <==> key == "Enter" && Trim(old(input)) != ""
      ensures sent ==> message == Trim(old(input)) && message != "" && input == ""
                       && file == old(file)
                       && log == old(log) + [User(message, ShownAttachment(file))]
      ensures !sent ==> input == old(input) && message == old(message)
                        && file == old(file) && log == old(log)
    {
      sent := key == "Enter" && Trim(input) != "";
      if sent {
        Submit();
      }
    }

    /** The timer callback and the synchronous start of `generateBotResponse`: the
        bot placeholder is appended in the thinking state, then the request body is
        built from the message and the file as they are now. Nothing is cleared. */
    method BeginReply() returns (turn: nat, body: Body)
      requires Valid()
      modifies this
      ensures Valid()
      ensures turn == |old(log)| && log == old(log) + [Bot(Pending, "")]
      ensures body == BuildBody(message, file)
      ensures input == old(input) && message == old(message) && file == old(file)
    {
      turn := |log|;
      log := log + [Bot(Pending, "")];
      body := BuildBody(message, file);
    }

    /** The rest of `generateBotResponse`, once the request has settled: the bot turn
        at `turn` gets its final state from the outcome, and the `finally` block
        clears the staged file whatever the outcome. */
    method Finish(turn: nat, outcome: Outcome)
      requires Valid()
      requires turn < |log| && log[turn].Bot?
      modifies this
      ensures Valid()
      ensures log == old(log)[turn := Reconcile(outcome)]
      ensures log[turn].status != Pending
      ensures file == None
      ensures input == old(input) && message == old(message)
    {
      log := log[turn := Reconcile(outcome)];
      file := None;
    }

    /** The file input's `change` listener with its `onload` callback: no file selected
        changes nothing; otherwise the selected file replaces whatever was staged. */
    method Stage(selected: Option<SelectedFile>)
      requires Valid()
      modifies this
      ensures Valid()
      ensures selected.None? ==> file == old(file)
      ensures selected.Some? ==>
                file == Some(Attachment(DataUrlPayload(selected.value.dataUrl), selected.value.mimeType))
      ensures input == old(input) && message == old(message) && log == old(log)
    {
      if selected.None? {
        return;
      }
      var s := selected.value;
      file := Some(Attachment(DataUrlPayload(s.dataUrl), s.mimeType));
    }

    /** The file cancel button: the staged file is dropped; nothing else changes. */
    method Cancel()
      requires Valid()
      modifies this
      ensures Valid()
      ensures file == None
      ensures input == old(input) && message == old(message) && log == old(log)
    {
      file := None;
    }
  }
}
