/** The whiteboard document, its two content kinds, and the single-record store. */
module Document {
  import opened Wrappers

  /** The two kinds `ContentUpdate.type` admits. */
  datatype Kind = Html | Url

  /** The ISO-8601 text `datetime.now().isoformat()` yields; opaque here. */
  type Timestamp = string

  /** The persisted record `{type, content, updated_at}`; the bootstrap
      default carries no `updated_at`, so the field is optional. */
  datatype Doc = Doc(kind: Kind, content: string, updatedAt: Option<Timestamp>)

  /** Errors a request can be rejected with. */
  datatype Error = InvalidKind

  /** What `load_content` returns when nothing has been stored. */
  const DefaultDoc: Doc := Doc(Html, "<h1>欢迎使用白板</h1>", None)

  /** The wire name of a kind. */
  function KindName(k: Kind): string {
    match k
    case Html => "html"
    case Url => "url"
  }

  /** Validation of the `type` field: only "html" and "url" are accepted. */
  function ParseKind(s: string): (r: Result<Kind, Error>)
    ensures r.Success? <==> (s == "html" || s == "url")
    ensures r.Success? ==> KindName(r.value) == s
    ensures r.Failure? ==> r.error == InvalidKind
  {
    if s == "html" then Success(Html)
    else if s == "url" then Success(Url)
    else Failure(InvalidKind)
  }

  /** Every kind's wire name parses back to that kind. */
  lemma ParseKindName(k: Kind)
    ensures ParseKind(KindName(k)) == Success(k)
  {
  }

  /** `load_content`: the stored record, or the default when there is none. */
  function LoadStore(store: Option<Doc>): (d: Doc)
    ensures store.None? ==> d == DefaultDoc && d.updatedAt.None? && d.kind == Html
    ensures store.Some? ==> d == store.value
  {
    store.GetOr(DefaultDoc)
  }

  /** `save_content`: the whole record is replaced. */
  function SaveStore(store: Option<Doc>, d: Doc): (s: Option<Doc>)
    ensures LoadStore(s) == d
  {
    Some(d)
  }

  /** Saving twice keeps only the second record: the first leaves no trace. */
  lemma SaveOverwrites(store: Option<Doc>, d1: Doc, d2: Doc)
    ensures SaveStore(SaveStore(store, d1), d2) == SaveStore(store, d2)
  {
  }
}
