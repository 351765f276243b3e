# Chatbot session controller in Dafny

This project models the message-session controller of a single-page chat client
(`script.js`). The controller keeps three pieces of module-global state:

- the trimmed outgoing message (`userData.message`);
- at most one staged file, `{data, mime_type}` (`userData.file`);
- the chat body, an ordered list of user and bot message elements.

From that state it builds the request body for the generation endpoint. When the
request settles, it reconciles the result into the pending bot message. The last
step strips markdown bold markers and trims the reply text.

Modules, one per file:

- `Wrappers` (`wrappers.dfy`): `Option`.
- `Text` (`text.dfy`): JavaScript `trim` (exact ECMAScript whitespace and line
  terminator sets) and `split` on one separator character, with its inverse `Join`.
- `Bold` (`bold.dfy`): the global replace of `**(.*?)**` by its group, written as a
  left-to-right scan. At each position it takes the lazy (shortest) one-line match
  or copies one character.
- `Request` (`request.dfy`): the staged attachment, the JSON request body
  `{contents: [{parts: [...]}]}` as datatypes, and the data-URL split that stages
  a file.
- `Log` (`log.dfy`): the turns of the chat body. A bot turn's status is `Pending`
  while it has the `thinking` class.
- `Reply` (`reply.dfy`): the four outcomes of a request and how each one becomes
  the final state of a bot turn.
- `Chat` (`session.dfy`): class `Session` with fields `input`, `message`, `file`
  and `log`. It has one method per event handler.
- `Scenarios` (`scenarios.dfy`): whole conversations driven through those methods.

The asynchronous steps become separate method calls, made in the order the browser
runs them:

1. `Submit` or `KeyDown`: the send handler.
2. `BeginReply`: the 600 ms timer callback plus the synchronous start of
   `generateBotResponse`. It appends the placeholder and builds the body.
3. `Finish`: the settled request, with the `catch` and `finally` blocks.

The network call and the JSON decoding of the reply are a parameter of `Finish`.
It is an `Outcome`: `TransportFailure`, `NotOk`, `OkWellFormed` or `Malformed`.

The code behaves as follows where a reader might expect otherwise:

- The send button calls the send handler with no emptiness check, so a blank input
  is sent as an empty message (`Scenarios.ButtonSendsBlank`). Only the Enter key
  checks the trimmed input.
- The staged file is not taken at send time. It is read when the timer starts the
  request, and it is cleared only in the `finally` block. A file staged between the
  send and the timer is therefore sent with the earlier message, although that
  user turn shows no image (`Scenarios.FileStagedAfterSend`).
- Nothing stops a second send while a reply is pending, so two bot turns can be
  `Pending` at once (`Scenarios.TwoPendingReplies`).
- A reply whose success shape is missing shows the message of the `TypeError`
  that was raised.
- The staged data is the second comma-separated field of the data URL, not
  everything after the first comma. The two agree for the data URLs a file reader
  produces (`Request.DataUrlPayloadOf`).

## Model

| member | source | states |
|---|---|---|
| `Text.SkipSpaces` | script.js:145 | the index of the first non-whitespace character at or after a position; everything skipped is whitespace |
| `Text.DropTrailingSpaces` | script.js:145 | the end of a range once trailing whitespace is dropped; everything dropped is whitespace and the last kept character is not |
| `Text.Trim` | script.js:208 | `trim` never lengthens its input and leaves no whitespace at either end |
| `Text.TrimBounds` | script.js:145 | `trim` keeps a slice of its input with only whitespace before and after it |
| `Text.TrimFixedPoint` | script.js:145 | `trim` leaves a string unchanged exactly when it has no whitespace at either end |
| `Text.TrimIdempotent` | script.js:208 | trimming twice equals trimming once |
| `Text.TrimEmptyIff` | script.js:301-306 | the trimmed input is empty exactly when every character is whitespace, the case in which Enter does not send |
| `Text.Split` | script.js:353 | `split(",")` gives at least one field and no field contains the separator |
| `Text.JoinSplit` | script.js:353 | joining the fields of a split with the separator gives the original string back |
| `Text.SplitJoin` | script.js:353 | splitting a join of separator-free fields gives the fields back |
| `Text.SplitWhole` | script.js:353 | a string without the separator splits into itself alone |
| `Text.SplitFirst` | script.js:353 | a separator-free field followed by the separator splits off as the first field |
| `Bold.FindClose` | script.js:145 | the lazy group `(.*?)` closes at the least `**` reached without crossing a line terminator; none is found exactly when no such `**` exists |
| `Bold.StripBold` | script.js:145 | the global replace never lengthens the text, and it shortens it by a multiple of four (two two-character markers per replacement) |
| `Bold.StripBoldShortens` | script.js:145 | if any `**X**` span matches, the output is at least four characters shorter |
| `Bold.StripBoldCopies` | script.js:145 | with no matching span anywhere, the text comes out unchanged |
| `Bold.StripBoldUnchangedIff` | script.js:145 | the replace leaves the text unchanged exactly when no bold span matches in it |
| `Bold.NoMarkersUnchanged` | script.js:145 | text containing no `**` is unchanged |
| `Bold.FindCloseAfter` | script.js:145 | after a star-free one-line run, the next `**` closes the group |
| `Bold.StripBoldLeadingSpan` | script.js:145 | `**X**` at the start becomes `X`, and the scan resumes after it |
| `Bold.StripBoldCopiesFirst` | script.js:145 | a first character other than `*` is copied unchanged |
| `Bold.StripBoldSpan` | script.js:145 | after a star-free prefix, `**X**` (X star-free, one line) is replaced by `X` and the rest is processed on |
| `Bold.StripBoldLastSpan` | script.js:145 | a star-free prefix followed by a final `**X**` comes out as the prefix followed by `X` |
| `Bold.StripBoldTwoSpans` | script.js:145 | two such spans separated by star-free text are both unwrapped |
| `Request.BuildBody` | script.js:113-118 | one content whose parts are the text part holding the message, then an `inline_data` part with the staged file exactly when the file has data; at most two parts |
| `Request.ShownAttachment` | script.js:223-225 | the user turn shows the staged file exactly when its data is non-empty |
| `Request.DataUrlPayload` | script.js:353 | the staged data contains no comma |
| `Request.DataUrlPayloadOf` | script.js:353-365 | for a data URL `header,payload`, the staged data is exactly the payload |
| `Request.DataUrlWithoutComma` | script.js:353 | a data URL without a comma stages empty (falsy) data |
| `Reply.Normalise` | script.js:145 | the displayed reply has no whitespace at either end and is never longer than the raw text |
| `Reply.NormalisePlain` | script.js:145 | a reply with no `**` and no surrounding whitespace is shown verbatim |
| `Reply.NormaliseFixesPlainDisplay` | script.js:145 | normalising a displayed text that contains no `**` changes nothing |
| `Reply.NormaliseExample` | script.js:145 | "Hello **world**, it's **great**" is shown as "Hello world, it's great" |
| `Reply.StripBoldExample` | script.js:145 | the bold strip alone turns "Hello **world**, it's **great**" into "Hello world, it's great" |
| `Reply.NormaliseBoldOnly` | script.js:145 | "**Hello!**" is shown as "Hello!" |
| `Reply.Reconcile` | script.js:125-170 | the bot turn ends in exactly one of Complete or Failed, never Pending. It is Complete exactly for a well-formed ok reply, showing the normalised text. Otherwise it is Failed, showing the reply's `error.message` for a non-ok reply and the thrown error's message for a transport failure or a malformed reply |
| `Chat.Session.constructor` | script.js:51-64 | a new session has no message, no staged file, an empty input and an empty chat body |
| `Chat.Session.Submit` | script.js:198-245 | the message becomes the trimmed input and the input is cleared. A user turn is appended that shows the staged file only if it has data. The file stays staged and earlier turns are untouched |
| `Chat.Session.KeyDown` | script.js:296-316 | a send happens exactly on Enter with a non-empty trimmed input, with the effects of `Submit`; any other key changes nothing |
| `Chat.Session.BeginReply` | script.js:250-289 | a Pending bot placeholder is appended after the existing turns. The request body is built from the message and file as they are at that moment, and nothing is cleared |
| `Chat.Session.Finish` | script.js:125-195 | only the given bot turn changes, to its reconciled final state, so it is no longer Pending. The staged file is cleared on every outcome, and the message and input are unchanged |
| `Chat.Session.Stage` | script.js:318-380 | with no file selected nothing changes. Otherwise the staged file is replaced by the data-URL payload and the file's type, and nothing else changes |
| `Chat.Session.Cancel` | script.js:382-396 | the staged file is dropped and the message, input and chat body are unchanged, so cancelling twice equals cancelling once |
| `Scenarios.ReplySucceeds` | script.js:92-311 | Enter on "Hi" followed by the reply "**Hello!**" leaves [user "Hi" without attachment, bot Complete "Hello!"] and no staged file |
| `Scenarios.FailureThenNextSend` | script.js:155-185 | a transport failure marks the bot turn Failed with its message, and the next Enter sends normally |
| `Scenarios.ButtonSendsBlank` | script.js:470 | Enter on a blank field does not send, but the send button appends an empty user turn and requests an empty text part |
| `Scenarios.FileStagedAfterSend` | script.js:113-118 | a file staged between send and timer is sent with the earlier message, though that user turn shows none; settling the reply clears it |
| `Scenarios.TwoPendingReplies` | script.js:250-289 | two sends before any reply leave two Pending bot turns |
| `Scenarios.CancelledFileIsNotSent` | script.js:387 | after cancel, the user turn shows no attachment and the request has only the text part |

## Left out

- DOM work is not modelled: element lookup, the markup of message bubbles and of the
  thinking indicator, the `file-uploaded` class, the red error colour, the image
  preview, resetting the file input and scrolling. A bot turn's `Failed` status
  stands for its red error text.
- `fetch`, the API key and URL, and the parsing of the reply with `response.json()`
  are network I/O. They become the `Outcome` parameter of `Finish`. A failure of
  `response.json()` is a `TransportFailure` or `Malformed` carrying that exception's
  message.
- The request body is a datatype, not the text `JSON.stringify` produces.
- `console.log` of the caught error is an operator diagnostic with no effect on state.
- The `FileReader` read and the 600 ms `setTimeout` become separate sequential calls
  (`Stage`, `BeginReply`, `Finish`). Interleavings of overlapping requests are not
  explored beyond the fixed orders in `Scenarios`.
- The base64 content of a file is an opaque string.
- A staged `data` of `undefined` (no comma in the data URL, or after the file is
  cleared) and the empty string are both falsy, and every reader of `file.data` only
  tests truthiness, so the model writes both as `""` or as no file.
- The initial `null` message is written `""`. The source never builds a request
  before a send has set it.
- Strings are sequences of Unicode scalar values, not UTF-16 code units. This matters
  only for lengths of text outside the Basic Multilingual Plane.
- The whitespace set of `trim` follows the ECMAScript WhiteSpace and LineTerminator
  productions with today's Unicode space separators.
- Emoji picker, chatbot show/hide toggles and the upload-button redirect
  (script.js:398-488) are widget wrappers around an external library.
- `Reply.NormaliseFixesPlainDisplay`: proved only for displayed text that contains no `**`.
  Idempotence in general is not stated, and the source does not promise it.
