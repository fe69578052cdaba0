/** JSON text, abstractly. Every record the auth code serialises is a flat object of
    strings; a cookie or storage entry is either the JSON of such an object or some
    other text, which `JSON.parse` (or the property reads after it) rejects. */
module Json {
  import opened Wrappers

  type Object = map<string, string>

  datatype Text = Encoded(obj: Object) | Other(raw: string) {
    /** Whether the text is truthy in JavaScript (only the empty string is not). */
    predicate Truthy() {
      Encoded? || raw != ""
    }
  }

  /** `JSON.stringify(o)`. */
  function Stringify(o: Object): Text {
    Encoded(o)
  }

  /** `JSON.parse(t)`, with the exception as None. */
  function Parse(t: Text): (r: Option<Object>)
    ensures r.Some? <==> t.Encoded?
  {
    match t
    case Encoded(o) => Some(o)
    case Other(_) => None
  }

  /** Parsing what was stringified gives back the object. */
  lemma ParseStringify(o: Object)
    ensures Parse(Stringify(o)) == Some(o)
  {
  }

  /** `o.key || fallback`: the field when it is present and nonempty, else the fallback. */
  function FieldOr(o: Object, key: string, fallback: string): (r: string)
    ensures key in o && o[key] != "" ==> r == o[key]
    ensures key !in o || o[key] == "" ==> r == fallback
  {
    if key in o && o[key] != "" then o[key] else fallback
  }

  /** `o.key === value`. */
  predicate FieldIs(o: Object, key: string, value: string) {
    key in o && o[key] == value
  }
}
