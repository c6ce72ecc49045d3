/** The read handlers: the public lists with their publish/active filters,
    category enrichment and `sortOrder` sorting (backend/server.js:313-353),
    the public inquiry form (backend/server.js:355-367), the dashboard counts
    (backend/server.js:374-382), the admin lists (backend/server.js:385-389,
    512-514) and the settings document (backend/server.js:533-541). */
module Reads {
  import opened Json
  import opened Seqs
  import opened Sorting
  import opened Store
  import opened Text

  predicate Published(r: Record) { Truthy(Get(r, "isPublished")) }
  predicate Active(r: Record) { Truthy(Get(r, "isActive")) }

  /** `c.id === p.categoryId`. */
  predicate CategoryOf(c: Record, p: Record) {
    StrictEq(Get(c, "id"), Get(p, "categoryId"))
  }

  /** `{ ...p, category: categories.find(c => c.id === p.categoryId) }` as
      sent: a dangling id gives `category: undefined`, which JSON drops. */
  function Enrich(p: Record, categories: seq<Record>): (e: Record)
    ensures e - {"category"} == p - {"category"}
    ensures "category" in e <==> exists c :: c in categories && CategoryOf(c, p)
    ensures "category" in e ==>
      exists i :: 0 <= i < |categories| && e["category"] == VObj(categories[i])
        && CategoryOf(categories[i], p)
        && forall j :: 0 <= j < i ==> !CategoryOf(categories[j], p)
  {
    match Find(categories, (c: Record) => CategoryOf(c, p))
    case None => p - {"category"}
    case Some(c) => p["category" := VObj(c)]
  }

  function EnrichAll(ps: seq<Record>, categories: seq<Record>): (es: seq<Record>)
    ensures |es| == |ps|
    ensures forall i :: 0 <= i < |ps| ==> es[i] == Enrich(ps[i], categories)
  {
    seq(|ps|, i requires 0 <= i < |ps| => Enrich(ps[i], categories))
  }

  /** `GET /api/products`: the published products in stored order, each
      with its category. */
  function PublicProducts(st: Store): (ps: seq<Record>)
    ensures |ps| == |Filter(Read(st, Products), Published)|
    ensures forall i :: 0 <= i < |ps| ==> Published(ps[i])
    ensures var kept := KeptIndices(Read(st, Products), Published);
      forall i :: 0 <= i < |ps| ==>
        kept[i] < |Read(st, Products)|
        && ps[i] == Enrich(Read(st, Products)[kept[i]], Read(st, Categories))
  {
    var f := Filter(Read(st, Products), Published);
    FilterSubsequence(Read(st, Products), Published);
    EnrichAll(f, Read(st, Categories))
  }

  /** The visibility rule: a stored product is listed publicly exactly when
      it is published, and everything listed is a published stored product. */
  lemma PublicProductsVisibility(st: Store)
    ensures forall p :: p in Read(st, Products) && Published(p) ==>
      Enrich(p, Read(st, Categories)) in PublicProducts(st)
    ensures forall e :: e in PublicProducts(st) ==>
      exists p :: p in Read(st, Products) && Published(p) && e == Enrich(p, Read(st, Categories))
  {
    var f := Filter(Read(st, Products), Published);
    forall p | p in Read(st, Products) && Published(p)
      ensures Enrich(p, Read(st, Categories)) in PublicProducts(st)
    {
      FilterMember(Read(st, Products), Published, p);
      var i :| 0 <= i < |f| && f[i] == p;
      assert PublicProducts(st)[i] == Enrich(p, Read(st, Categories));
    }
    forall e | e in PublicProducts(st)
      ensures exists p :: p in Read(st, Products) && Published(p) && e == Enrich(p, Read(st, Categories))
    {
      var i :| 0 <= i < |PublicProducts(st)| && PublicProducts(st)[i] == e;
      FilterMember(Read(st, Products), Published, f[i]);
    }
  }

  /** `GET /api/admin/products`: every product, unfiltered, enriched the same way. */
  function AdminProducts(st: Store): (ps: seq<Record>)
    ensures |ps| == |Read(st, Products)|
    ensures forall i :: 0 <= i < |ps| ==> ps[i] == Enrich(Read(st, Products)[i], Read(st, Categories))
  {
    EnrichAll(Read(st, Products), Read(st, Categories))
  }

  predicate HasSlug(p: Record, slug: string) {
    StrictEq(Get(p, "slug"), Some(VStr(slug))) && Published(p)
  }

  /** `GET /api/products/:slug`: the first published product with that slug,
      enriched, or 404. */
  function ProductBySlug(st: Store, slug: string): (rep: Reply)
    ensures rep.store == st
    ensures rep.status == 404 <==> forall p :: p in Read(st, Products) ==> !HasSlug(p, slug)
    ensures rep.status == 404 ==> rep.body == ErrorBody("Product not found")
    ensures rep.status != 404 ==>
      var ps := Read(st, Products);
      && rep.status == 200
      && exists i :: 0 <= i < |ps| && HasSlug(ps[i], slug)
           && (forall j :: 0 <= j < i ==> !HasSlug(ps[j], slug))
           && rep.body == VObj(Enrich(ps[i], Read(st, Categories)))
  {
    var ps := Read(st, Products);
    match FindIndex(ps, (p: Record) => HasSlug(p, slug))
    case None =>
      assert forall p :: p in ps ==> !HasSlug(p, slug) by {
        forall p | p in ps ensures !HasSlug(p, slug) {
          var j :| 0 <= j < |ps| && ps[j] == p;
          assert !(((p: Record) => HasSlug(p, slug))(ps[j]));
        }
      }
      Reply(st, 404, ErrorBody("Product not found"))
    case Some(i) => Reply(st, 200, VObj(Enrich(ps[i], Read(st, Categories))))
  }

  /** The number `a.sortOrder - b.sortOrder` coerces a sort order to
      (`Text.ToNumber`): numbers as they are, `null` and `false` 0, `true`
      1, numeric strings their value. A sort order that coerces to NaN
      makes the comparator return NaN, which leaves the order to the
      engine; this model orders it as 0. */
  function SortOrder(r: Record): (k: int)
    ensures Get(r, "sortOrder").Some? && Get(r, "sortOrder").value.VNum? ==> k == r["sortOrder"].n
    ensures Get(r, "sortOrder").Some? && Get(r, "sortOrder").value.VStr? && StringToNumber(r["sortOrder"].s).Some? ==>
      k == StringToNumber(r["sortOrder"].s).value
    ensures Get(r, "sortOrder").None? || Get(r, "sortOrder") == Some(VNull) ==> k == 0
  {
    match ToNumber(Get(r, "sortOrder"))
    case Some(n) => n
    case None => 0
  }

  /** Sort orders stored as numeric strings sort by their value: `"3"`
      after `"1"`, and the empty string as 0. */
  lemma SortOrderStrings(r: Record, n: int)
    ensures SortOrder(r["sortOrder" := VStr(ShowInt(n))]) == n
    ensures SortOrder(r["sortOrder" := VStr("")]) == 0
    ensures SortOrder(r["sortOrder" := VNum(n)]) == n
  {
    ShowIntRoundTrip(n, "", "");
    assert "" + ShowInt(n) + "" == ShowInt(n);
  }

  predicate OnPage(b: Record, page: string) {
    StrictEq(Get(b, "page"), Some(VStr(page)))
  }

  /** The banners `GET /api/banners` selects before sorting: the active ones,
      and when a non-empty `page` query is given, only those on that page. */
  function SelectBanners(banners: seq<Record>, page: Option<string>): (r: seq<Record>)
    ensures |r| <= |banners|
    ensures forall b :: b in r <==> b in banners && Active(b) && (page.Some? && page.value != "" ==> OnPage(b, page.value))
  {
    var active := Filter(banners, Active);
    forall b ensures b in active <==> b in banners && Active(b) {
      FilterMember(banners, Active, b);
    }
    forall b ensures page.Some? && page.value != "" ==>
        (b in Filter(active, (b: Record) => OnPage(b, page.value)) <==> b in active && OnPage(b, page.value)) {
      if page.Some? && page.value != "" {
        FilterMember(active, (b: Record) => OnPage(b, page.value), b);
      }
    }
    if page.Some? && page.value != "" then Filter(active, (b: Record) => OnPage(b, page.value))
    else active
  }

  /** `GET /api/banners?page=`: the selected banners sorted stably by
      ascending `sortOrder`. */
  function PublicBanners(st: Store, page: Option<string>): (bs: seq<Record>)
    ensures multiset(bs) == multiset(SelectBanners(Read(st, Banners), page))
    ensures SortedBy(bs, SortOrder)
    ensures forall i :: 0 <= i < |bs| ==> Active(bs[i])
    ensures page.Some? && page.value != "" ==> forall i :: 0 <= i < |bs| ==> OnPage(bs[i], page.value)
    ensures forall k :: WithKey(bs, SortOrder, k) == WithKey(SelectBanners(Read(st, Banners), page), SortOrder, k)
  {
    var sel := SelectBanners(Read(st, Banners), page);
    SelectedBannersQualify(Read(st, Banners), page);
    forall k ensures WithKey(SortBy(sel, SortOrder), SortOrder, k) == WithKey(sel, SortOrder, k) {
      SortStable(sel, SortOrder, k);
    }
    var bs := SortBy(sel, SortOrder);
    forall i | 0 <= i < |bs| ensures bs[i] in sel {
      assert bs[i] in multiset(bs);
    }
    bs
  }

  lemma SelectedBannersQualify(banners: seq<Record>, page: Option<string>)
    ensures forall b :: b in SelectBanners(banners, page) ==> Active(b)
    ensures page.Some? && page.value != "" ==>
      forall b :: b in SelectBanners(banners, page) ==> OnPage(b, page.value)
  {
    var active := Filter(banners, Active);
    forall b | b in active ensures Active(b) {
      FilterMember(banners, Active, b);
    }
    if page.Some? && page.value != "" {
      forall b | b in SelectBanners(banners, page) ensures Active(b) && OnPage(b, page.value) {
        FilterMember(active, (x: Record) => OnPage(x, page.value), b);
      }
    }
  }

  /** `GET /api/testimonials`: the published testimonials, unsorted, in
      stored order. */
  function PublicTestimonials(st: Store): (ts: seq<Record>)
    ensures At(ts, Read(st, Testimonials), KeptIndices(Read(st, Testimonials), Published))
    ensures forall t :: t in ts <==> t in Read(st, Testimonials) && Published(t)
    ensures forall t :: multiset(ts)[t] == if Published(t) then multiset(Read(st, Testimonials))[t] else 0
  {
    var ts := Filter(Read(st, Testimonials), Published);
    forall t ensures (t in ts <==> t in Read(st, Testimonials) && Published(t))
                  && multiset(ts)[t] == if Published(t) then multiset(Read(st, Testimonials))[t] else 0 {
      FilterMember(Read(st, Testimonials), Published, t);
      FilterCount(Read(st, Testimonials), Published, t);
    }
    FilterSubsequence(Read(st, Testimonials), Published);
    ts
  }

  /** `GET /api/faqs`: the published FAQs sorted stably by ascending `sortOrder`. */
  function PublicFaqs(st: Store): (fs: seq<Record>)
    ensures multiset(fs) == multiset(Filter(Read(st, Faqs), Published))
    ensures SortedBy(fs, SortOrder)
    ensures forall i :: 0 <= i < |fs| ==> Published(fs[i])
    ensures forall k :: WithKey(fs, SortOrder, k) == WithKey(Filter(Read(st, Faqs), Published), SortOrder, k)
  {
    var sel := Filter(Read(st, Faqs), Published);
    forall k ensures WithKey(SortBy(sel, SortOrder), SortOrder, k) == WithKey(sel, SortOrder, k) {
      SortStable(sel, SortOrder, k);
    }
    forall f | f in sel ensures Published(f) {
      FilterMember(Read(st, Faqs), Published, f);
    }
    var fs := SortBy(sel, SortOrder);
    forall i | 0 <= i < |fs| ensures fs[i] in sel {
      assert fs[i] in multiset(fs);
    }
    fs
  }

  /** The sample banners of the sort scenario: sort orders 3, 1, 2 come out
      as 1, 2, 3. */
  lemma BannerSortScenario(b1: Record, b2: Record, b3: Record)
    requires SortOrder(b1) == 3 && SortOrder(b2) == 1 && SortOrder(b3) == 2
    ensures SortBy([b1, b2, b3], SortOrder) == [b2, b3, b1]
  {
    SortThree(b1, b2, b3, SortOrder);
  }

  lemma SortThree<T>(x: T, y: T, z: T, key: T -> int)
    requires key(y) < key(z) < key(x)
    ensures SortBy([x, y, z], key) == [y, z, x]
  {
    SortTwo(y, z, key);
    InsertAfterTwo(x, y, z, key);
    assert [x, y, z][1..] == [y, z];
  }

  lemma SortTwo<T>(y: T, z: T, key: T -> int)
    requires key(y) <= key(z)
    ensures SortBy([y, z], key) == [y, z]
  {
    assert [z][1..] == [];
    assert SortBy([z], key) == [z];
    assert [y, z][1..] == [z];
  }

  lemma InsertAfterTwo<T>(x: T, y: T, z: T, key: T -> int)
    requires key(y) < key(x) && key(z) < key(x)
    ensures Insert(x, [y, z], key) == [y, z, x]
  {
    assert [y, z][1..] == [z];
    assert [z][1..] == [];
    assert Insert(x, [z], key) == [z] + Insert(x, [], key);
  }

  /** The six fields the public inquiry form may set. */
  const InquiryFields := {"name", "email", "phone", "subject", "message", "inquiryType"}

  /** The inquiry `POST /api/inquiries` stores: the six named fields that the
      body carries (missing ones are `undefined` and dropped), a fresh id,
      status `new` and the creation time. */
  function NewInquiry(body: Record, id: string, now: string): (rec: Record)
    ensures rec.Keys == {"id", "status", "createdAt"} + (body.Keys * InquiryFields)
    ensures rec["id"] == VStr(id) && rec["status"] == VStr("new") && rec["createdAt"] == VStr(now)
    ensures forall k :: k in InquiryFields && k in body ==> rec[k] == body[k]
  {
    map["id" := VStr(id)] + Pick(body, InquiryFields)
      + map["status" := VStr("new"), "createdAt" := VStr(now)]
  }

  /** `POST /api/inquiries`: appends the new inquiry and answers 201. */
  function SubmitInquiry(st: Store, body: Record, id: string, now: string): (rep: Reply)
    ensures rep.status == 201 && rep.body == VObj(NewInquiry(body, id, now))
    ensures Read(rep.store, Inquiries) == Read(st, Inquiries) + [NewInquiry(body, id, now)]
    ensures forall n :: n != Inquiries ==> Read(rep.store, n) == Read(st, n)
    ensures rep.store.settings == st.settings
  {
    var rec := NewInquiry(body, id, now);
    Reply(Write(st, Inquiries, Read(st, Inquiries) + [rec]), 201, VObj(rec))
  }

  predicate IsNew(i: Record) { StrictEq(Get(i, "status"), Some(VStr("new"))) }

  /** `GET /api/admin/stats`. */
  function Stats(st: Store): (s: Record)
    ensures s.Keys == {"products", "inquiries", "banners", "testimonials", "newInquiries"}
    ensures s["products"] == VNum(|Read(st, Products)|)
    ensures s["inquiries"] == VNum(|Read(st, Inquiries)|)
    ensures s["banners"] == VNum(|Read(st, Banners)|)
    ensures s["testimonials"] == VNum(|Read(st, Testimonials)|)
    ensures s["newInquiries"] == VNum(|Filter(Read(st, Inquiries), IsNew)|)
    ensures 0 <= s["newInquiries"].n <= s["inquiries"].n
  {
    map[
      "products" := VNum(|Read(st, Products)|),
      "inquiries" := VNum(|Read(st, Inquiries)|),
      "banners" := VNum(|Read(st, Banners)|),
      "testimonials" := VNum(|Read(st, Testimonials)|),
      "newInquiries" := VNum(|Filter(Read(st, Inquiries), IsNew)|)]
  }

  /** The count of new inquiries is zero exactly when no inquiry is new. */
  lemma {:induction false} NewCountZero(inquiries: seq<Record>)
    ensures |Filter(inquiries, IsNew)| == 0 <==> forall i :: 0 <= i < |inquiries| ==> !IsNew(inquiries[i])
    decreases |inquiries|
  {
    if |inquiries| > 0 {
      NewCountZero(inquiries[1..]);
      if !IsNew(inquiries[0]) {
        assert forall i :: 1 <= i < |inquiries| ==> inquiries[i] == inquiries[1..][i - 1];
      }
    }
  }

  /** The sort key of the admin inquiry list: the negated creation time,
      so that ascending order is newest first. */
  function Recency(timeOf: Option<Value> -> int): Record -> int {
    (q: Record) => -timeOf(Get(q, "createdAt"))
  }

  /** `GET /api/admin/inquiries`: every inquiry, newest first. `timeOf`
      stands for `new Date(createdAt)` in milliseconds; the comparator
      `b - a` is a stable sort on the negated time. */
  function AdminInquiries(st: Store, timeOf: Option<Value> -> int): (qs: seq<Record>)
    ensures multiset(qs) == multiset(Read(st, Inquiries))
    ensures forall i, j :: 0 <= i < j < |qs| ==>
      timeOf(Get(qs[i], "createdAt")) >= timeOf(Get(qs[j], "createdAt"))
    ensures forall k :: WithKey(qs, Recency(timeOf), k) == WithKey(Read(st, Inquiries), Recency(timeOf), k)
  {
    var key := Recency(timeOf);
    forall k ensures WithKey(SortBy(Read(st, Inquiries), key), key, k) == WithKey(Read(st, Inquiries), key, k) {
      SortStable(Read(st, Inquiries), key, k);
    }
    var qs := SortBy(Read(st, Inquiries), key);
    assert forall i, j :: 0 <= i < j < |qs| ==> key(qs[i]) <= key(qs[j]);
    qs
  }

  /** `PUT /api/admin/settings` answers with the body, and the next read of
      the settings returns exactly that body: the document is replaced, not
      merged. */
  lemma SettingsReplaceRoundTrip(st: Store, body: Record)
    ensures ReadSettings(WriteSettings(st, body)) == VObj(body)
    ensures WriteSettings(WriteSettings(st, body), body) == WriteSettings(st, body)
    ensures forall n :: Read(WriteSettings(st, body), n) == Read(st, n)
  {
  }
}
