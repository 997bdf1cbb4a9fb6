/** The IIIF Presentation API (version 2) documents the crawler reads, and the
    web it reads them from.

    A JSON field that is absent, null or not an array reads the same to the
    crawler (its `isset` / `is_array` tests fail), so each array-valued field
    is an `Option<seq<_>>` whose `None` covers all three. An array element
    that is not an object has no fields at all, which is a value whose every
    field is `None`. */
module Iiif {

  datatype Option<+T> = None | Some(value: T)

  type Url = string

  /** A resource entry: `format` is its MIME type, `id` its `@id`. */
  datatype Resource = Resource(format: Option<string>, id: Option<Url>)

  /** An entry of a canvas's `images` array; the resource sits under `.resource`. */
  datatype Annotation = Annotation(resource: Option<Resource>)

  datatype Canvas = Canvas(images: Option<seq<Annotation>>, rendering: Option<seq<Resource>>)

  datatype Sequence = Sequence(canvases: Option<seq<Canvas>>)

  /** An entry of a collection's `members`, `collections` or `manifests` array;
      `labelText` is its `label` (a reserved word in Dafny). */
  datatype Member = Member(labelText: Option<string>, id: Option<Url>)

  /** A decoded document: the four fields the crawler looks at. */
  datatype Doc = Doc(
    members: Option<seq<Member>>,
    collections: Option<seq<Member>>,
    manifests: Option<seq<Member>>,
    sequences: Option<seq<Sequence>>)

  /** The outside world: what `file_get_contents` returns for each URL it
      can retrieve, and what `json_decode` makes of each body it decodes to a
      truthy value. A body missing from `decoded` is one that does not parse
      or that decodes to a falsy value (null, false, 0, "", "0", []). */
  datatype Web = Web(bodies: map<Url, string>, decoded: map<string, Doc>)

  /** `file_get_contents(url)`: the body, or `None` where it returns false.
      An empty name (a member without `@id` reaches here as null) is never
      retrievable. */
  function Retrieve(web: Web, url: Url): (body: Option<string>)
    ensures body.Some? <==> url != "" && url in web.bodies
    ensures body.Some? ==> body.value == web.bodies[url]
  {
    if url != "" && url in web.bodies then Some(web.bodies[url]) else None
  }

  /** PHP's truthiness of a string: only "" and "0" are falsy. */
  predicate IsFalsy(s: string)
  {
    s == "" || s == "0"
  }

  datatype Loaded = RetrievalFailed | DecodeFailed | Decoded(doc: Doc)

  /** The two guarded assignments that open `getUrl`: `!$json = file_get_contents(...)`
      and `!$data = json_decode($json)`. */
  function Load(web: Web, url: Url): (r: Loaded)
    ensures r.RetrievalFailed? <==> Retrieve(web, url).None? || IsFalsy(Retrieve(web, url).value)
    ensures !r.RetrievalFailed? ==> (r.Decoded? <==> web.bodies[url] in web.decoded)
    ensures r.Decoded? ==> r.doc == web.decoded[web.bodies[url]]
  {
    var json := Retrieve(web, url);
    if json.None? || IsFalsy(json.value) then RetrievalFailed
    else if json.value !in web.decoded then DecodeFailed
    else Decoded(web.decoded[json.value])
  }

  /** An array-valued field read as a list: absent or non-array is empty. */
  function ArrayOrEmpty<T>(field: Option<seq<T>>): seq<T>
  {
    if field.Some? then field.value else []
  }
}
