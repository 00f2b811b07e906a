/**
 * `JSON.stringify` and `JSON.parse` as an abstract encoding. A stored text is
 * either the serialization of one of the three collections or some other
 * text (a version tag, corrupt data); only the former parses. The grammar of
 * JSON itself is not modelled.
 */
module Json {
  import opened Wrappers
  import opened Types

  datatype Document = MemberList(members: seq<Member>) | TripList(trips: seq<Trip>) | PollList(polls: seq<Poll>)

  /** A string value held by the browser store. */
  datatype Text = Plain(chars: string) | Encoded(doc: Document)

  /** The empty string, which the store's `|| null` reads back as missing. */
  const EmptyText := Plain("")

  function Stringify(d: Document): (t: Text)
    ensures t != EmptyText
  {
    Encoded(d)
  }

  /** `JSON.parse`: `None` stands for the exception it throws on text that is not a serialized document. */
  function Parse(t: Text): Option<Document> {
    match t
    case Encoded(d) => Some(d)
    case Plain(_) => None
  }

  /** The decoding half of the round trip. */
  lemma ParseStringify(d: Document)
    ensures Parse(Stringify(d)) == Some(d)
  {
  }

  /** A text parses to a document exactly when it is that document's serialization; so the encoding is injective. */
  lemma ParseOnlyStringified(t: Text, d: Document)
    ensures Parse(t) == Some(d) <==> t == Stringify(d)
  {
  }

  function ParseMembers(t: Text): Option<seq<Member>> {
    match Parse(t)
    case Some(MemberList(ms)) => Some(ms)
    case _ => None
  }

  function ParseTrips(t: Text): Option<seq<Trip>> {
    match Parse(t)
    case Some(TripList(ts)) => Some(ts)
    case _ => None
  }

  function ParsePolls(t: Text): Option<seq<Poll>> {
    match Parse(t)
    case Some(PollList(ps)) => Some(ps)
    case _ => None
  }
}
