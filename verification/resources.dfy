/** The admin create, update and delete handlers (backend/server.js:384-560).
    Each reads a whole collection, changes it, and writes it back whole. */
module Resources {
  import opened Json
  import opened Seqs
  import opened Store

  /** The collections the admin routes manage. */
  datatype Resource = ProductsR | BannersR | TestimonialsR | FaqsR | CategoriesR | InquiriesR

  function NameOf(r: Resource): Name {
    match r
    case ProductsR => Products
    case BannersR => Banners
    case TestimonialsR => Testimonials
    case FaqsR => Faqs
    case CategoriesR => Categories
    case InquiriesR => Inquiries
  }

  /** Which routes exist: inquiries are created only through the public
      route, categories can only be listed and created. */
  predicate CanCreate(r: Resource) { r != InquiriesR }
  predicate CanUpdate(r: Resource) { r != CategoriesR }
  predicate CanDelete(r: Resource) { r != CategoriesR }

  /** The 404 message of each update route. */
  function NotFoundMessage(r: Resource): string
    requires CanUpdate(r)
  {
    match r
    case ProductsR => "Product not found"
    case BannersR => "Banner not found"
    case TestimonialsR => "Testimonial not found"
    case FaqsR => "FAQ not found"
    case _ => "Inquiry not found"
  }

  /** The time stamps a create writes after the body: products get both,
      banners and testimonials `createdAt`, FAQs and categories none. */
  function CreateStamps(r: Resource, now: string): Record {
    match r
    case ProductsR => map["createdAt" := VStr(now), "updatedAt" := VStr(now)]
    case BannersR => map["createdAt" := VStr(now)]
    case TestimonialsR => map["createdAt" := VStr(now)]
    case _ => map[]
  }

  /** The stamps an update writes after the body: only products refresh
      `updatedAt`. */
  function UpdateStamps(r: Resource, now: string): Record {
    if r == ProductsR then map["updatedAt" := VStr(now)] else map[]
  }

  /** `{ id: uuidv4(), ...req.body, <stamps> }`: the generated id comes
      before the spread, the stamps after it. */
  function NewRecord(r: Resource, body: Record, id: string, now: string): (rec: Record)
    ensures rec.Keys == {"id"} + body.Keys + CreateStamps(r, now).Keys
    ensures rec["id"] == if "id" in body then body["id"] else VStr(id)
    ensures forall k :: k in CreateStamps(r, now) ==> rec[k] == CreateStamps(r, now)[k]
    ensures forall k :: k in body && k !in CreateStamps(r, now) ==> rec[k] == body[k]
  {
    map["id" := VStr(id)] + body + CreateStamps(r, now)
  }

  /** `POST /api/admin/<r>`: appends the new record and answers 201 with it.
      `id` is the fresh identifier and `now` the ISO time stamp. */
  function Create(st: Store, r: Resource, body: Record, id: string, now: string): (rep: Reply)
    requires CanCreate(r)
    ensures rep.status == 201
    ensures rep.body == VObj(NewRecord(r, body, id, now))
    ensures Read(rep.store, NameOf(r)) == Read(st, NameOf(r)) + [NewRecord(r, body, id, now)]
    ensures forall n :: n != NameOf(r) ==> Read(rep.store, n) == Read(st, n)
    ensures rep.store.settings == st.settings
  {
    var rec := NewRecord(r, body, id, now);
    Reply(Write(st, NameOf(r), Read(st, NameOf(r)) + [rec]), 201, VObj(rec))
  }

  /** `p.id === id` for a route parameter. */
  predicate HasId(rec: Record, id: string) {
    StrictEq(Get(rec, "id"), Some(VStr(id)))
  }

  /** `{ ...prev, ...req.body, <stamps> }`: a shallow, right-biased merge. */
  function Merge(r: Resource, prev: Record, body: Record, now: string): (m: Record)
    ensures m.Keys == prev.Keys + body.Keys + UpdateStamps(r, now).Keys
    ensures forall k :: k in UpdateStamps(r, now) ==> m[k] == UpdateStamps(r, now)[k]
    ensures forall k :: k in body && k !in UpdateStamps(r, now) ==> m[k] == body[k]
    ensures forall k :: k in prev && k !in body && k !in UpdateStamps(r, now) ==> m[k] == prev[k]
  {
    prev + body + UpdateStamps(r, now)
  }

  /** `PUT /api/admin/<r>/:id`: merges the body into the first record with
      that id, or answers 404 and writes nothing. */
  function Update(st: Store, r: Resource, id: string, body: Record, now: string): (rep: Reply)
    requires CanUpdate(r)
    ensures var coll := Read(st, NameOf(r));
      (forall i :: 0 <= i < |coll| ==> !HasId(coll[i], id)) <==> rep.status == 404
    ensures rep.status == 404 ==> rep.store == st && rep.body == ErrorBody(NotFoundMessage(r))
    ensures rep.status != 404 ==> rep.status == 200
    ensures rep.status == 200 ==>
      var coll := Read(st, NameOf(r));
      exists i :: 0 <= i < |coll| && HasId(coll[i], id)
        && (forall j :: 0 <= j < i ==> !HasId(coll[j], id))
        && Read(rep.store, NameOf(r)) == coll[i := Merge(r, coll[i], body, now)]
        && rep.body == VObj(Merge(r, coll[i], body, now))
    ensures forall n :: n != NameOf(r) ==> Read(rep.store, n) == Read(st, n)
    ensures rep.store.settings == st.settings
  {
    var coll := Read(st, NameOf(r));
    match FindIndex(coll, (rec: Record) => HasId(rec, id))
    case None => Reply(st, 404, ErrorBody(NotFoundMessage(r)))
    case Some(i) =>
      var rec := Merge(r, coll[i], body, now);
      Reply(Write(st, NameOf(r), coll[i := rec]), 200, VObj(rec))
  }

  /** The records of `coll` that do not carry `id`, in order. */
  function Without(coll: seq<Record>, id: string): (r: seq<Record>)
    ensures |r| <= |coll|
    ensures forall rec :: rec in r <==> rec in coll && !HasId(rec, id)
  {
    forall rec ensures rec in Filter(coll, (rec: Record) => !HasId(rec, id)) <==> rec in coll && !HasId(rec, id) {
      FilterMember(coll, (rec: Record) => !HasId(rec, id), rec);
    }
    Filter(coll, (rec: Record) => !HasId(rec, id))
  }

  /** `DELETE /api/admin/<r>/:id`: drops every record with that id, writes
      the rest back and always answers `{ success: true }`. */
  function Delete(st: Store, r: Resource, id: string): (rep: Reply)
    requires CanDelete(r)
    ensures rep.status == 200 && rep.body == VObj(map["success" := VBool(true)])
    ensures Read(rep.store, NameOf(r)) == Without(Read(st, NameOf(r)), id)
    ensures forall n :: n != NameOf(r) ==> Read(rep.store, n) == Read(st, n)
    ensures rep.store.settings == st.settings
  {
    Reply(Write(st, NameOf(r), Without(Read(st, NameOf(r)), id)), 200,
          VObj(map["success" := VBool(true)]))
  }

  /** After a delete no record carries the id, and every other record is
      still there: a value occurs as often as before unless it had the id. */
  lemma DeleteRemovesExactly(st: Store, r: Resource, id: string)
    requires CanDelete(r)
    ensures var after := Read(Delete(st, r, id).store, NameOf(r));
      && (forall i :: 0 <= i < |after| ==> !HasId(after[i], id))
      && forall rec :: multiset(after)[rec]
           == if HasId(rec, id) then 0 else multiset(Read(st, NameOf(r)))[rec]
  {
    var keep := (rec: Record) => !HasId(rec, id);
    forall rec ensures multiset(Read(Delete(st, r, id).store, NameOf(r)))[rec]
                       == if HasId(rec, id) then 0 else multiset(Read(st, NameOf(r)))[rec] {
      FilterCount(Read(st, NameOf(r)), keep, rec);
    }
  }

  /** Deleting an id that no record carries changes no collection's content. */
  lemma DeleteAbsentId(st: Store, r: Resource, id: string)
    requires CanDelete(r)
    requires forall i :: 0 <= i < |Read(st, NameOf(r))| ==> !HasId(Read(st, NameOf(r))[i], id)
    ensures forall n :: Read(Delete(st, r, id).store, n) == Read(st, n)
  {
    FilterAll(Read(st, NameOf(r)), (rec: Record) => !HasId(rec, id));
  }

  /** Deleting twice is deleting once. */
  lemma DeleteIdempotent(st: Store, r: Resource, id: string)
    requires CanDelete(r)
    ensures Delete(Delete(st, r, id).store, r, id) == Delete(st, r, id)
  {
    var once := Delete(st, r, id).store;
    FilterIdempotent(Read(st, NameOf(r)), (rec: Record) => !HasId(rec, id));
    assert once.collections[NameOf(r) := Without(Read(once, NameOf(r)), id)] == once.collections;
  }

  /** Deleting the record a create just appended, when nothing else carried
      its id, gives back the collection as it was before. */
  lemma CreateThenDelete(st: Store, r: Resource, body: Record, id: string, now: string)
    requires CanCreate(r) && CanDelete(r)
    requires "id" !in body
    requires forall i :: 0 <= i < |Read(st, NameOf(r))| ==> !HasId(Read(st, NameOf(r))[i], id)
    ensures Read(Delete(Create(st, r, body, id, now).store, r, id).store, NameOf(r))
         == Read(st, NameOf(r))
  {
    var coll := Read(st, NameOf(r));
    var rec := NewRecord(r, body, id, now);
    var keep := (x: Record) => !HasId(x, id);
    FilterAppend(coll, [rec], keep);
    FilterAll(coll, keep);
    assert !keep(rec);
    assert Filter([rec], keep) == [];
  }

  /** Merging the same body again at the same time changes nothing, for
      every collection: the stamps are rewritten with the same value. */
  lemma MergeIdempotent(r: Resource, prev: Record, body: Record, now: string)
    ensures Merge(r, Merge(r, prev, body, now), body, now) == Merge(r, prev, body, now)
  {
  }

  /** An update never changes the length of the collection. */
  lemma UpdateKeepsLength(st: Store, r: Resource, id: string, body: Record, now: string)
    requires CanUpdate(r)
    ensures |Read(Update(st, r, id, body, now).store, NameOf(r))| == |Read(st, NameOf(r))|
  {
  }
}
