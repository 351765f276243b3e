/**
 * Whole conversations driven through the handlers in the order the browser runs
 * them: a send, the timer callback that starts the reply, and the settled request.
 */
module Scenarios {
  import opened Wrappers
  import opened Text
  import opened Request
  import opened Log
  import opened Reply
  import opened Chat

  /** Enter on "Hi" with nothing staged, then a successful reply "**Hello!**": the
      log holds the user turn and the completed bot turn, and no file is staged. */
  method ReplySucceeds() returns (s: Session)
    ensures s.Valid()
    ensures s.log == [User("Hi", None), Bot(Complete, "Hello!")]
    ensures s.file == None && s.message == "Hi" && s.input == ""
  {
    s := new Session();
    s.input := "Hi";
    assert NoEdgeSpace("Hi");
    TrimFixedPoint("Hi");
    var sent := s.KeyDown("Enter");
    var turn, body := s.BeginReply();
    assert s.log == [User("Hi", None), Bot(Pending, "")];
    assert body.contents[0].parts == [TextPart("Hi")];
    NormaliseBoldOnly("**" + "Hello!" + "**");
    s.Finish(turn, OkWellFormed("**" + "Hello!" + "**"));
  }

  /** A transport failure marks the bot turn Failed with its message, and the
      session takes the next message as usual. */
  method FailureThenNextSend() returns (s: Session)
    ensures s.Valid()
    ensures |s.log| == 4
    ensures s.log[1] == Bot(Failed, "network down")
    ensures s.log[2] == User("Again", None) && s.log[3] == Bot(Pending, "")
  {
    s := new Session();
    s.input := "Hi";
    assert NoEdgeSpace("Hi");
    TrimFixedPoint("Hi");
    s.Submit();
    var turn, body := s.BeginReply();
    s.Finish(turn, TransportFailure("network down"));
    assert s.log == [User("Hi", None), Bot(Failed, "network down")];
    s.input := "Again";
    assert NoEdgeSpace("Again");
    TrimFixedPoint("Again");
    var sent := s.KeyDown("Enter");
    assert sent && s.log == [User("Hi", None), Bot(Failed, "network down"), User("Again", None)];
    turn, body := s.BeginReply();
  }

  /** Enter on a blank field does nothing, but the send button sends it anyway:
      an empty user turn is appended and an empty text part is requested. */
  method ButtonSendsBlank() returns (s: Session, sentByEnter: bool, body: Body)
    ensures !sentByEnter
    ensures |body.contents| == 1
    ensures s.log == [User("", None), Bot(Pending, "")]
    ensures body.contents[0].parts == [TextPart("")]
  {
    s := new Session();
    s.input := "  ";
    assert forall i | 0 <= i < |s.input| :: IsSpace(s.input[i]);
    TrimEmptyIff(s.input);
    sentByEnter := s.KeyDown("Enter");
    s.Submit();
    var turn;
    turn, body := s.BeginReply();
  }

  /** The file is read when the timer starts the request, not when the user sends:
      a file staged in between is sent with the earlier message although the user
      turn shows none; settling the reply then drops it. */
  method FileStagedAfterSend(header: string, payload: string, mimeType: string)
    returns (s: Session, body: Body)
    requires ',' !in header && ',' !in payload && payload != ""
    ensures |s.log| == 2 && s.log[0] == User("Hi", None)
    ensures |body.contents| == 1 && body.contents[0].parts
            == [TextPart("Hi"), InlineData(Attachment(payload, mimeType))]
    ensures s.file == None
  {
    s := new Session();
    s.input := "Hi";
    assert NoEdgeSpace("Hi");
    TrimFixedPoint("Hi");
    s.Submit();
    DataUrlPayloadOf(header, payload);
    s.Stage(Some(SelectedFile(header + [','] + payload, mimeType)));
    var turn;
    turn, body := s.BeginReply();
    s.Finish(turn, OkWellFormed("ok"));
  }

  /** Nothing stops a second send while a reply is pending: two bot turns are
      Pending at once. */
  method TwoPendingReplies() returns (s: Session)
    ensures |s.log| == 4
    ensures s.log[1] == Bot(Pending, "") && s.log[3] == Bot(Pending, "")
  {
    s := new Session();
    s.input := "one";
    s.Submit();
    var turn, body := s.BeginReply();
    assert |s.log| == 2 && s.log[1] == Bot(Pending, "");
    s.input := "two";
    s.Submit();
    turn, body := s.BeginReply();
  }

  /** A staged file that the user cancels is neither shown nor sent. */
  method CancelledFileIsNotSent(selected: SelectedFile) returns (s: Session, body: Body)
    ensures |s.log| == 2 && s.log[0].User? && s.log[0].attachment == None
    ensures |body.contents| == 1 && |body.contents[0].parts| == 1
  {
    s := new Session();
    s.Stage(Some(selected));
    s.Cancel();
    s.input := "Hi";
    s.Submit();
    var turn;
    turn, body := s.BeginReply();
  }
}
