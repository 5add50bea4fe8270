/** The records the service stores: the `Type` enumeration and the
    `Resource` record, with the defaults its optional fields take. */
module Models {

  /** `str | None` in the record's optional fields. */
  datatype Option<+T> = None | Some(value: T)

  /** A calendar date and time as the record carries it; nothing in the
      service computes with it. */
  datatype DateTime = DateTime(year: int, month: int, day: int,
                               hour: int, minute: int, second: int, microsecond: int)

  /** The kind of a resource: a text snippet or a link. Each member has a
      string value, which is what a client sends and receives. */
  datatype Type = Text | Url {
    function Value(): string {
      match this
      case Text => "text"
      case Url => "link"
    }
  }

  /** Enumeration lookup by value: the member whose value is `s`, if any. */
  function TypeFromValue(s: string): (t: Option<Type>)
    ensures t.Some? <==> s == "text" || s == "link"
    ensures t.Some? ==> t.value.Value() == s
  {
    if s == "text" then Some(Text)
    else if s == "link" then Some(Url)
    else None
  }

  /** The two members have the values "text" and "link"; lookup by value
      returns each member, so no two members share a value. */
  lemma TypeValues(t: Type)
    ensures t == Text || t == Url
    ensures Text.Value() == "text" && Url.Value() == "link"
    ensures TypeFromValue(t.Value()) == Some(t)
  {
  }

  /** A stored text snippet or link. `id` is the key the service files it
      under; `kind` is the record's `type` field. A record built without
      `vanityUrl`, `expirationTime` or `accessCount` gets `None`, `None`
      and `0`. */
  datatype Resource = Resource(
    id: string,
    content: string,
    vanityUrl: Option<string> := None,
    kind: Type,
    expirationTime: Option<DateTime> := None,
    accessCount: int := 0)

  /** Building a record from its required fields alone leaves it without a
      vanity path and without an expiration time, and with an access count
      of zero. */
  lemma OmittedFieldsDefault(id: string, content: string, kind: Type)
    ensures var r := Resource(id, content, kind := kind);
      && r.id == id && r.content == content && r.kind == kind
      && r.vanityUrl == None
      && r.expirationTime == None
      && r.accessCount == 0
  {
  }
}
