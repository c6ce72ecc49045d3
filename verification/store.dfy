/** The file-backed collection store (backend/server.js:27-38), in memory:
    one document per name, each read and rewritten whole. */
module Store {
  import opened Json

  /** The array documents, one per data file name (`users.json`, ...). */
  datatype Name = Users | Categories | Products | Testimonials | Banners | Faqs | Inquiries

  /** The documents that exist. `collections` holds the array documents;
      `settings` is the one object document, absent until written. */
  datatype Store = Store(collections: map<Name, seq<Record>>, settings: Option<Record>)

  const Empty := Store(map[], None)

  /** `readData(name)` for an array document: a missing document reads as `[]`. */
  function Read(st: Store, name: Name): (r: seq<Record>)
    ensures name !in st.collections ==> r == []
    ensures name in st.collections ==> r == st.collections[name]
  {
    if name in st.collections then st.collections[name] else []
  }

  /** `writeData(name, rs)`: replaces the whole document. */
  function Write(st: Store, name: Name, rs: seq<Record>): (st': Store)
    ensures Read(st', name) == rs
    ensures name in st'.collections
    ensures forall n :: n != name ==> Read(st', n) == Read(st, n)
    ensures forall n :: n != name ==> (n in st'.collections <==> n in st.collections)
    ensures st'.settings == st.settings
  {
    st.(collections := st.collections[name := rs])
  }

  /** `readData('settings')`: the settings object, or `[]` when the
      document does not exist yet. */
  function ReadSettings(st: Store): (v: Value)
    ensures st.settings.None? ==> v == VList([])
    ensures st.settings.Some? ==> v == VObj(st.settings.value)
  {
    match st.settings
    case None => VList([])
    case Some(m) => VObj(m)
  }

  /** `writeData('settings', body)`: replaces the whole settings document. */
  function WriteSettings(st: Store, body: Record): (st': Store)
    ensures ReadSettings(st') == VObj(body)
    ensures st'.collections == st.collections
  {
    st.(settings := Some(body))
  }

  /** What a handler leaves behind: the store after its writes, and the
      HTTP status and JSON body it answers with. */
  datatype Reply = Reply(store: Store, status: nat, body: Value)
}
