/** First-run seeding (`initializeData`, backend/server.js:41-259): each named
    document is written with its default content only when it does not exist. */
module Seed {
  import opened Json
  import opened Seqs
  import opened Store

  /** Writes `rs` under `name` only when no document of that name exists. */
  function SeedCollection(st: Store, name: Name, rs: seq<Record>): (st': Store)
    ensures name in st.collections ==> st' == st
    ensures name !in st.collections ==> Read(st', name) == rs && name in st'.collections
    ensures forall n :: n != name ==> Read(st', n) == Read(st, n)
    ensures forall n :: n in st.collections ==> n in st'.collections
    ensures st'.settings == st.settings
  {
    if name in st.collections then st else Write(st, name, rs)
  }

  /** Writes the settings document only when it does not exist. */
  function SeedSettings(st: Store, body: Record): (st': Store)
    ensures st.settings.Some? ==> st' == st
    ensures st.settings.None? ==> st'.settings == Some(body)
    ensures st'.collections == st.collections
  {
    if st.settings.Some? then st else WriteSettings(st, body)
  }

  function DefaultUsers(ids: nat -> string, passwordHash: string, now: string): seq<Record> {
    [map[
      "id" := VStr(ids(0)),
      "email" := VStr("admin@gaushalafresh.com"),
      "password" := VStr(passwordHash),
      "name" := VStr("Admin"),
      "role" := VStr("admin"),
      "createdAt" := VStr(now)]]
  }

  function CategorySeed(id: string, name: string, slug: string, sortOrder: int): Record {
    map["id" := VStr(id), "name" := VStr(name), "slug" := VStr(slug), "sortOrder" := VNum(sortOrder)]
  }

  function DefaultCategories(ids: nat -> string): seq<Record> {
    [ CategorySeed(ids(1), "Milk", "milk", 1),
      CategorySeed(ids(2), "Ghee", "ghee", 2),
      CategorySeed(ids(3), "Dahi", "dahi", 3),
      CategorySeed(ids(4), "Lassi", "lassi", 4) ]
  }

  function VariantSeed(id: string, size: string, price: int, unit: string): Value {
    VObj(map[
      "id" := VStr(id), "size" := VStr(size), "price" := VNum(price),
      "unit" := VStr(unit), "stockStatus" := VStr("in_stock")])
  }

  /** `categories.find(c => c.slug === slug)?.id`: `None` when no category
      has that slug or the one found has no id; the key is then dropped. */
  function CategoryIdFor(categories: seq<Record>, slug: string): Option<Value> {
    match Find(categories, (c: Record) => StrictEq(Get(c, "slug"), Some(VStr(slug))))
    case None => None
    case Some(c) => Get(c, "id")
  }

  /** One seeded product. Its fractional `rating` is not modelled. */
  function ProductSeed(
    id: string, name: string, slug: string, tagline: string, categoryId: Option<Value>,
    shortDescription: string, longDescription: string, variants: seq<Value>,
    image: string, benefits: seq<string>, reviewCount: int, now: string): Record
  {
    var fields := map[
      "id" := VStr(id), "name" := VStr(name), "slug" := VStr(slug),
      "tagline" := VStr(tagline),
      "shortDescription" := VStr(shortDescription),
      "longDescription" := VStr(longDescription),
      "variants" := VList(variants),
      "images" := VList([VStr(image)]),
      "amazonLink" := VStr("https://amazon.in"),
      "benefits" := VList(Strings(benefits)),
      "isFeatured" := VBool(true), "isPublished" := VBool(true),
      "stockStatus" := VStr("in_stock"),
      "reviewCount" := VNum(reviewCount),
      "createdAt" := VStr(now)];
    match categoryId
    case None => fields
    case Some(c) => fields["categoryId" := c]
  }

  const MilkShort := "Farm-fresh cow's milk from our grass-fed, free-range cows."
  const MilkLong := "Collected fresh every morning and delivered within 24 hours. No preservatives, no additives, just pure wholesome milk the way nature intended."
  const MilkImage := "https://images.unsplash.com/photo-1563636619-e9143da7973b?w=800"
  const GheeShort := "Made using the traditional Bilona method."
  const GheeLong := "Slow-churned to perfection with the rich aroma of grandmother's kitchen."
  const GheeImage := "https://images.unsplash.com/photo-1631452180519-c014fe946bc7?w=800"
  const DahiShort := "Thick, creamy dahi made from fresh cow's milk."
  const DahiLong := "Perfect consistency, mildly tangy, and incredibly smooth."
  const DahiImage := "https://images.unsplash.com/photo-1488477181946-6428a0291777?w=800"
  const LassiShort := "Signature lassi made fresh from thick dahi."
  const LassiLong := "Churned to creamy perfection. Available in sweet and salted variants."
  const LassiImage := "https://images.unsplash.com/photo-1587304801900-75dee63b6ea0?w=800"

  /** The four sample products, linked to whatever categories exist by slug. */
  function DefaultProducts(categories: seq<Record>, ids: nat -> string, now: string): seq<Record> {
    [ ProductSeed(ids(10), "Fresh Cow's Milk", "fresh-cows-milk", "Pure milk from happy cows",
        CategoryIdFor(categories, "milk"), MilkShort, MilkLong,
        [ VariantSeed(ids(11), "500ml", 35, "pouch"),
          VariantSeed(ids(12), "1 Liter", 65, "pouch"),
          VariantSeed(ids(13), "2 Liter", 125, "pack") ],
        MilkImage, ["Farm Fresh", "No Preservatives", "Rich in Calcium"], 2340, now),
      ProductSeed(ids(14), "Pure Desi Ghee", "pure-desi-ghee", "The golden essence of tradition",
        CategoryIdFor(categories, "ghee"), GheeShort, GheeLong,
        [ VariantSeed(ids(15), "200g", 250, "jar"),
          VariantSeed(ids(16), "500g", 550, "jar"),
          VariantSeed(ids(17), "1kg", 999, "jar") ],
        GheeImage, ["Bilona Method", "High Smoke Point", "Omega-3 Rich"], 1856, now),
      ProductSeed(ids(18), "Fresh Dahi", "fresh-dahi", "Set curd with cultured taste",
        CategoryIdFor(categories, "dahi"), DahiShort, DahiLong,
        [ VariantSeed(ids(19), "200g", 30, "cup"),
          VariantSeed(ids(20), "400g", 55, "cup"),
          VariantSeed(ids(21), "1kg", 120, "pack") ],
        DahiImage, ["Probiotics", "Aids Digestion", "No Preservatives"], 1234, now),
      ProductSeed(ids(22), "Fresh Lassi", "fresh-lassi", "Refreshing tradition in every sip",
        CategoryIdFor(categories, "lassi"), LassiShort, LassiLong,
        [ VariantSeed(ids(23), "200ml Sweet", 35, "bottle"),
          VariantSeed(ids(24), "200ml Salted", 35, "bottle"),
          VariantSeed(ids(25), "500ml Sweet", 75, "bottle") ],
        LassiImage, ["Cooling Effect", "Probiotic Rich", "Energy Booster"], 987, now) ]
  }

  function TestimonialSeed(id: string, name: string, location: string, image: string,
                           quote: string, product: string, now: string): Record {
    map[
      "id" := VStr(id), "name" := VStr(name), "location" := VStr(location),
      "image" := VStr(image), "quote" := VStr(quote), "product" := VStr(product),
      "rating" := VNum(5), "isFeatured" := VBool(true), "isPublished" := VBool(true),
      "createdAt" := VStr(now)]
  }

  function DefaultTestimonials(ids: nat -> string, now: string): seq<Record> {
    [ TestimonialSeed(ids(30), "Priya Sharma", "Mumbai",
        "https://images.unsplash.com/photo-1494790108377-be9c29b29330?w=200",
        "The taste of GauShala Fresh milk takes me back to my grandmother's village.",
        "Fresh Milk", now),
      TestimonialSeed(ids(31), "Rajesh Patel", "Ahmedabad",
        "https://images.unsplash.com/photo-1507003211169-0a1dd7228f2d?w=200",
        "The ghee is absolutely incredible. The aroma is heavenly!",
        "Pure Desi Ghee", now) ]
  }

  function DefaultBanners(ids: nat -> string, now: string): seq<Record> {
    [ map[
        "id" := VStr(ids(40)),
        "title" := VStr("Farm Fresh, Heart Blessed"),
        "subtitle" := VStr("Experience the pure taste of tradition"),
        "backgroundImage" := VStr("https://images.unsplash.com/photo-1500595046743-cd271d694d30?w=2000"),
        "ctaText" := VStr("Explore Products"),
        "ctaLink" := VStr("/products"),
        "page" := VStr("home"),
        "sortOrder" := VNum(1),
        "isActive" := VBool(true),
        "createdAt" := VStr(now)] ]
  }

  function DefaultSettings(): Record {
    map[
      "siteName" := VStr("Shudh Dudh"),
      "tagline" := VStr("100% Unadulterated"),
      "phone" := VStr("+91-9815987765"),
      "phone2" := VStr("+91-9988250038"),
      "email" := VStr("jindal.dairy@gmail.com"),
      "address" := VStr("House No. 43-A, Gian Colony, Sant Nagar, Patiala, Punjab - 147001"),
      "whatsappNumber" := VStr("919815987765"),
      "amazonStoreUrl" := VStr(""),
      "fssai" := VStr("12125681000197"),
      "socialLinks" := VObj(map[
        "facebook" := VStr(""), "instagram" := VStr(""),
        "youtube" := VStr(""), "twitter" := VStr("")])]
  }

  function FaqSeed(id: string, question: string, answer: string, category: string, sortOrder: int): Record {
    map[
      "id" := VStr(id), "question" := VStr(question), "answer" := VStr(answer),
      "category" := VStr(category), "sortOrder" := VNum(sortOrder), "isPublished" := VBool(true)]
  }

  function DefaultFaqs(ids: nat -> string): seq<Record> {
    [ FaqSeed(ids(50), "How fresh is your milk?",
        "Our milk is collected fresh every morning and delivered within 24 hours.", "products", 1),
      FaqSeed(ids(51), "Do you deliver to my area?",
        "We currently deliver across major cities. Contact us on WhatsApp to check availability.",
        "delivery", 2) ]
  }

  /** The default content of each document. Products are a function of the
      categories present when they are seeded. */
  datatype Defaults = Defaults(
    users: seq<Record>,
    categories: seq<Record>,
    products: seq<Record> -> seq<Record>,
    testimonials: seq<Record>,
    banners: seq<Record>,
    settings: Record,
    faqs: seq<Record>)

  /** The defaults `initializeData` writes: `ids` supplies the fresh
      identifiers, `passwordHash` the salted hash of the default password
      `admin123`, `now` the creation time stamp. */
  function SourceDefaults(ids: nat -> string, passwordHash: string, now: string): Defaults {
    Defaults(
      DefaultUsers(ids, passwordHash, now),
      DefaultCategories(ids),
      categories => DefaultProducts(categories, ids, now),
      DefaultTestimonials(ids, now),
      DefaultBanners(ids, now),
      DefaultSettings(),
      DefaultFaqs(ids))
  }

  /** A document `initializeData` may create: an array document or the
      settings object. */
  datatype Doc = Collection(name: Name) | SettingsDoc

  predicate Present(st: Store, doc: Doc) {
    match doc
    case Collection(n) => n in st.collections
    case SettingsDoc => st.settings.Some?
  }

  /** The default array written under `n` when it is seeded in state `st`:
      products are linked against the categories stored at that moment,
      inquiries start empty. */
  function DefaultRecords(d: Defaults, n: Name, st: Store): seq<Record> {
    match n
    case Users => d.users
    case Categories => d.categories
    case Products => d.products(Read(st, Categories))
    case Testimonials => d.testimonials
    case Banners => d.banners
    case Faqs => d.faqs
    case Inquiries => []
  }

  /** One `if (!fs.existsSync(...)) writeData(...)` block. */
  function SeedStep(st: Store, doc: Doc, d: Defaults): (st': Store)
    ensures Present(st, doc) ==> st' == st
    ensures Present(st', doc)
    ensures forall n :: Collection(n) != doc ==>
      (n in st'.collections <==> n in st.collections) && Read(st', n) == Read(st, n)
    ensures doc.Collection? ==> st'.settings == st.settings
    ensures doc.Collection? && doc.name !in st.collections ==>
      Read(st', doc.name) == DefaultRecords(d, doc.name, st)
    ensures doc == SettingsDoc && st.settings.None? ==> st'.settings == Some(d.settings)
  {
    match doc
    case Collection(n) => SeedCollection(st, n, DefaultRecords(d, n, st))
    case SettingsDoc => SeedSettings(st, d.settings)
  }

  /** Runs the seeding blocks of `plan` in order. Whatever existed is kept
      as it was, and every document of the plan exists afterwards. */
  function SeedAll(st: Store, plan: seq<Doc>, d: Defaults): (st': Store)
    ensures forall n :: n in st.collections ==> n in st'.collections && Read(st', n) == Read(st, n)
    ensures st.settings.Some? ==> st'.settings == st.settings
    ensures st.settings.None? && SettingsDoc in plan ==> st'.settings == Some(d.settings)
    ensures forall i :: 0 <= i < |plan| ==> Present(st', plan[i])
    decreases |plan|
  {
    if |plan| == 0 then st
    else
      var st' := SeedAll(SeedStep(st, plan[0], d), plan[1..], d);
      assert forall i :: 1 <= i < |plan| ==> plan[i] == plan[1..][i - 1];
      assert SettingsDoc in plan && plan[0] != SettingsDoc ==> SettingsDoc in plan[1..];
      st'
  }

  /** The order of the blocks in `initializeData`. */
  const Order := [Collection(Users), Collection(Categories), Collection(Products),
                  Collection(Testimonials), Collection(Banners), SettingsDoc,
                  Collection(Faqs), Collection(Inquiries)]

  /** `initializeData`: seeds users, categories, products (linked to the
      categories present at that point), testimonials, banners, settings,
      FAQs and inquiries, in that order, each only when absent. */
  function Initialize(st: Store, d: Defaults): (st': Store)
    ensures forall n :: n in st.collections ==> n in st'.collections && Read(st', n) == Read(st, n)
    ensures st.settings.Some? ==> st'.settings == st.settings
    ensures st.settings.None? ==> st'.settings == Some(d.settings)
  {
    assert Order[5] == SettingsDoc;
    SeedAll(st, Order, d)
  }

  /** After start-up every document exists. */
  lemma InitializeComplete(st: Store, d: Defaults)
    ensures forall n: Name :: Present(Initialize(st, d), Collection(n))
    ensures Initialize(st, d).settings.Some?
  {
    forall n: Name ensures Present(Initialize(st, d), Collection(n)) {
      InOrder(n);
    }
    assert Order[5] == SettingsDoc;
  }

  /** A document whose default does not depend on the store, absent before
      a plan that seeds it, holds that default afterwards. */
  lemma {:induction false} SeedAllWritesDefault(st: Store, plan: seq<Doc>, d: Defaults, n: Name)
    requires n != Products
    requires Collection(n) in plan && n !in st.collections
    ensures Read(SeedAll(st, plan, d), n) == DefaultRecords(d, n, st)
    decreases |plan|
  {
    var s1 := SeedStep(st, plan[0], d);
    if plan[0] == Collection(n) {
      assert SeedAll(st, plan, d) == SeedAll(s1, plan[1..], d);
    } else {
      assert Collection(n) in plan[1..];
      SeedAllWritesDefault(s1, plan[1..], d, n);
    }
  }

  /** Every array document is in the start-up order. */
  lemma InOrder(n: Name)
    ensures Collection(n) in Order
  {
    match n
    case Users => assert Order[0] == Collection(n);
    case Categories => assert Order[1] == Collection(n);
    case Products => assert Order[2] == Collection(n);
    case Testimonials => assert Order[3] == Collection(n);
    case Banners => assert Order[4] == Collection(n);
    case Faqs => assert Order[6] == Collection(n);
    case Inquiries => assert Order[7] == Collection(n);
  }

  /** A document that was absent holds its default after start-up. */
  lemma InitializeWritesDefaults(st: Store, d: Defaults, n: Name)
    requires n != Products && n !in st.collections
    ensures Read(Initialize(st, d), n) == DefaultRecords(d, n, st)
    ensures n == Users ==> Read(Initialize(st, d), n) == d.users
    ensures n == Inquiries ==> Read(Initialize(st, d), n) == []
  {
    InOrder(n);
    SeedAllWritesDefault(st, Order, d, n);
  }

  /** Products seeded after the categories exist are linked against the
      categories as they stand at the end. */
  lemma {:induction false} SeedAllLinks(st: Store, plan: seq<Doc>, d: Defaults)
    requires Categories in st.collections && Products !in st.collections
    requires Collection(Products) in plan
    ensures var st' := SeedAll(st, plan, d);
      Read(st', Products) == d.products(Read(st', Categories))
    decreases |plan|
  {
    var s1 := SeedStep(st, plan[0], d);
    if plan[0] == Collection(Products) {
      assert SeedAll(st, plan, d) == SeedAll(s1, plan[1..], d);
    } else {
      assert Collection(Products) in plan[1..];
      SeedAllLinks(s1, plan[1..], d);
    }
  }

  /** Seeded products are linked against the categories as they stand after
      start-up: the ones already stored, or the freshly seeded defaults. */
  lemma InitializeLinksProducts(st: Store, d: Defaults)
    requires Products !in st.collections
    ensures var st' := Initialize(st, d);
      Read(st', Products) == d.products(Read(st', Categories))
  {
    var s2 := SeedStep(SeedStep(st, Order[0], d), Order[1], d);
    assert Order[1..][1..] == Order[2..];
    assert Initialize(st, d) == SeedAll(s2, Order[2..], d);
    assert Order[2..][0] == Collection(Products);
    SeedAllLinks(s2, Order[2..], d);
  }

  /** Once every document of the plan exists, seeding writes nothing. */
  lemma {:induction false} SeedAllPresent(st: Store, plan: seq<Doc>, d: Defaults)
    requires forall i :: 0 <= i < |plan| ==> Present(st, plan[i])
    ensures SeedAll(st, plan, d) == st
    decreases |plan|
  {
    if |plan| > 0 {
      assert forall i :: 0 <= i < |plan[1..]| ==> plan[1..][i] == plan[i + 1];
      SeedAllPresent(st, plan[1..], d);
    }
  }

  /** A second start-up writes nothing: seeding is idempotent whatever
      defaults the second run would have used. */
  lemma InitializeIdempotent(st: Store, d: Defaults, d': Defaults)
    ensures Initialize(Initialize(st, d), d') == Initialize(st, d)
  {
    SeedAllPresent(Initialize(st, d), Order, d');
  }

  /** The seeded administrator: the default e-mail, the hashed default
      password and the `admin` role. */
  lemma AdminSeed(ids: nat -> string, passwordHash: string, now: string)
    ensures |DefaultUsers(ids, passwordHash, now)| == 1
    ensures var u := DefaultUsers(ids, passwordHash, now)[0];
      && Get(u, "role") == Some(VStr("admin"))
      && Get(u, "email") == Some(VStr("admin@gaushalafresh.com"))
      && Get(u, "password") == Some(VStr(passwordHash))
      && Get(u, "id") == Some(VStr(ids(0)))
  {
  }

  /** On an empty store, start-up writes the single administrator, an empty
      inquiry list and the default settings. */
  lemma FreshStoreSeeds(ids: nat -> string, passwordHash: string, now: string)
    ensures var st := Initialize(Empty, SourceDefaults(ids, passwordHash, now));
      && Read(st, Users) == DefaultUsers(ids, passwordHash, now)
      && Read(st, Inquiries) == []
      && st.settings == Some(DefaultSettings())
  {
    InitializeWritesDefaults(Empty, SourceDefaults(ids, passwordHash, now), Users);
    InitializeWritesDefaults(Empty, SourceDefaults(ids, passwordHash, now), Inquiries);
  }
}
