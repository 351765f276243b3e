/**
 * How `generateBotResponse` turns the result of its request into the final state of
 * the bot message: the outcome of `fetch` and of reading the JSON reply is abstracted
 * to four cases.
 */
module Reply {
  import opened Text
  import opened Bold
  import opened Log

  datatype Outcome =
    | TransportFailure(message: string)  // `fetch` or `response.json()` threw
    | NotOk(errorMessage: string)        // `!response.ok`: the reply's `error.message`
    | OkWellFormed(candidateText: string)  // `candidates[0].content.parts[0].text`
    | Malformed(message: string)         // a field on that path was missing: the TypeError's message

  /** The reply text as displayed: bold markers stripped, then trimmed. */
  function Normalise(raw: string): (r: string)
    ensures NoEdgeSpace(r)
    ensures |r| <= |raw|
  {
    Trim(StripBold(raw))
  }

  /** A reply with no `**` and no surrounding whitespace is displayed verbatim. */
  lemma NormalisePlain(raw: string)
    requires forall i: int :: !DoubleStarAt(raw, i)
    requires NoEdgeSpace(raw)
    ensures Normalise(raw) == raw
  {
    NoMarkersUnchanged(raw);
    TrimFixedPoint(raw);
  }

  /** Normalising a displayed text again changes nothing when it has no `**`. */
  lemma NormaliseFixesPlainDisplay(raw: string)
    requires forall i: int :: !DoubleStarAt(Normalise(raw), i)
    ensures Normalise(Normalise(raw)) == Normalise(raw)
  {
    NormalisePlain(Normalise(raw));
  }

  /** The example "Hello **world**, it's **great**" (written as its
      pieces around the markers): both spans are unwrapped, nothing else changes. */
  lemma NormaliseExample(raw: string)
    requires raw == "Hello " + "**" + "world" + "**" + ", it's " + "**" + "great" + "**"
    ensures Normalise(raw) == "Hello " + "world" + ", it's " + "great"
  {
    StripBoldExample(raw);
    var out := "Hello " + "world" + ", it's " + "great";
    assert NoEdgeSpace(out);
    TrimFixedPoint(out);
  }

  lemma StripBoldExample(raw: string)
    requires raw == "Hello " + "**" + "world" + "**" + ", it's " + "**" + "great" + "**"
    ensures StripBold(raw) == "Hello " + "world" + ", it's " + "great"
  {
    var p1, x1, p2, x2 := "Hello ", "world", ", it's ", "great";
    assert '*' !in p1 && '*' !in x1 && '*' !in p2 && '*' !in x2;
    assert forall i | 0 <= i < |x1| :: !IsLineTerminator(x1[i]);
    assert forall i | 0 <= i < |x2| :: !IsLineTerminator(x2[i]);
    StripBoldTwoSpans(p1, x1, p2, x2);
  }

  /** A reply that is one bold span, "**Hello!**", shows just its inside. */
  lemma NormaliseBoldOnly(raw: string)
    requires raw == "**" + "Hello!" + "**"
    ensures Normalise(raw) == "Hello!"
  {
    var x := "Hello!";
    assert StripBold(raw) == x by {
      assert '*' !in x;
      assert forall i | 0 <= i < |x| :: !IsLineTerminator(x[i]);
      StripBoldLeadingSpan(x, []);
      assert raw == "**" + x + "**" + [];
    }
    assert NoEdgeSpace(x);
    TrimFixedPoint(x);
  }

  /** The final state of the bot message: exactly one of Complete (the normalised
      reply, no surrounding whitespace) or Failed (the error's message); never Pending. */
  function Reconcile(outcome: Outcome): (r: Turn)
    ensures r.Bot? && r.status != Pending
    ensures r.status == Complete <==> outcome.OkWellFormed?
    ensures r.status == Failed <==> !outcome.OkWellFormed?
    ensures outcome.OkWellFormed? ==> r.text == Normalise(outcome.candidateText) && NoEdgeSpace(r.text)
    ensures outcome.NotOk? ==> r.text == outcome.errorMessage
    ensures outcome.TransportFailure? || outcome.Malformed? ==> r.text == outcome.message
  {
    match outcome
    case OkWellFormed(candidate) => Bot(Complete, Normalise(candidate))
    // the `catch` block shows the thrown error's message
    case NotOk(m) => Bot(Failed, m)
    case TransportFailure(m) => Bot(Failed, m)
    case Malformed(m) => Bot(Failed, m)
  }
}
