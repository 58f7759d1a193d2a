/**
 * What the website's list components share: how a `fetch` of JSON settles, the
 * errors they tell apart, JavaScript's truthiness of strings, and the cards they
 * render.
 */
module WebFetch {

  /** A JavaScript error: whether it is a DOMException, its `name` and its message. */
  datatype JsError = JsError(isDomException: bool, name: string, message: string)

  /** `err instanceof DOMException && err.name === 'AbortError'`. */
  predicate IsAbortError(e: JsError) {
    e.isDomException && e.name == "AbortError"
  }

  /**
   * How the `fetch(...).then(...)` of a component settled: an ok response whose
   * JSON is `data`, a response that is not ok, or a rejection (the request, the
   * abort signal, or `res.json()`).
   */
  datatype Settlement<T> = Delivered(data: T) | NotOk | Rejected(error: JsError)

  /**
   * What a settled request logs: every error but an AbortError; a response that is
   * not ok throws the Error whose message the component names.
   */
  function Logged<T>(outcome: Settlement<T>, notOkMessage: string): (r: seq<JsError>)
    ensures r == [] <==> outcome.Delivered? || (outcome.Rejected? && IsAbortError(outcome.error))
    ensures outcome.NotOk? ==> r == [JsError(false, "Error", notOkMessage)]
    ensures outcome.Rejected? && !IsAbortError(outcome.error) ==> r == [outcome.error]
  {
    match outcome
    case Delivered(_) => []
    case NotOk => [JsError(false, "Error", notOkMessage)]
    case Rejected(e) => if IsAbortError(e) then [] else [e]
  }

  /** A string is truthy in JavaScript when it is not empty. */
  predicate Truthy(s: string) {
    s != ""
  }

  /** The heading of a card: a link to the site, or plain text. */
  datatype Heading = LinkHeading(href: string, text: string) | TextHeading(text: string)

  /** The body of a card: a logo image, or the name again. */
  datatype Picture = Image(src: string) | NameText(text: string)

  datatype Card = Card(heading: Heading, picture: Picture)

  /** A list component renders a spinner or a grid of cards. */
  datatype ListView = Spinner | Grid(cards: seq<Card>)
}
