/** The API surface of backend/server.js:290-541: which handler answers each
    route, and which routes sit behind the authentication gate. Routes are
    taken as already matched; the path matching itself is Express's. */
module Api {
  import opened Json
  import opened Store
  import opened Auth
  import opened Resources
  import opened Reads
  import opened Seed

  /** The registered routes (the file upload route is not part of this model). */
  datatype Route =
    | LoginRoute
    | MeRoute
    | ProductList
    | ProductSlug(slug: string)
    | CategoryList
    | BannerList(page: Option<string>)
    | TestimonialList
    | FaqList
    | SettingsGet
    | InquirySubmit
    | StatsRoute
    | AdminList(r: Resource)
    | AdminCreate(r: Resource)
    | AdminUpdate(r: Resource, id: string)
    | AdminDelete(r: Resource, id: string)
    | AdminSettingsGet
    | AdminSettingsPut

  /** A route is registered only for the operations each collection offers. */
  predicate Registered(route: Route) {
    match route
    case AdminCreate(r) => CanCreate(r)
    case AdminUpdate(r, _) => CanUpdate(r)
    case AdminDelete(r, _) => CanDelete(r)
    case _ => true
  }

  /** The routes registered with `authMiddleware` in front of the handler. */
  predicate Guarded(route: Route) {
    route.MeRoute? || route.StatsRoute? || route.AdminList? || route.AdminCreate?
    || route.AdminUpdate? || route.AdminDelete? || route.AdminSettingsGet?
    || route.AdminSettingsPut?
  }

  /** The foreign calls and fresh values a request may use: token
      verification and signing, the password check, a fresh identifier,
      the current ISO time, and the parse of a `createdAt` to milliseconds. */
  datatype Env = Env(
    verify: string -> Option<Record>,
    compare: (Option<Value>, Option<Value>) -> Check,
    sign: Record -> string,
    freshId: string,
    now: string,
    timeOf: Option<Value> -> int)

  function Records(rs: seq<Record>): Value {
    VList(seq(|rs|, i requires 0 <= i < |rs| => VObj(rs[i])))
  }

  /** The handler behind a route, once past the gate when it has one;
      `claims` are the verified token claims. */
  function Serve(st: Store, route: Route, body: Record, claims: Record, env: Env): (rep: Reply)
    requires Registered(route)
    ensures !route.InquirySubmit? && !route.AdminCreate?
            && !route.AdminUpdate? && !route.AdminDelete? && !route.AdminSettingsPut?
            ==> rep.store == st
  {
    match route
    case LoginRoute => Login(st, body, env.compare, env.sign)
    case MeRoute => Me(st, claims)
    case ProductList => Reply(st, 200, Records(PublicProducts(st)))
    case ProductSlug(slug) => ProductBySlug(st, slug)
    case CategoryList => Reply(st, 200, Records(Read(st, Categories)))
    case BannerList(page) => Reply(st, 200, Records(PublicBanners(st, page)))
    case TestimonialList => Reply(st, 200, Records(PublicTestimonials(st)))
    case FaqList => Reply(st, 200, Records(PublicFaqs(st)))
    case SettingsGet => Reply(st, 200, ReadSettings(st))
    case InquirySubmit => SubmitInquiry(st, body, env.freshId, env.now)
    case StatsRoute => Reply(st, 200, VObj(Stats(st)))
    case AdminList(r) =>
      var rs := match r
        case ProductsR => AdminProducts(st)
        case InquiriesR => AdminInquiries(st, env.timeOf)
        case _ => Read(st, NameOf(r));
      Reply(st, 200, Records(rs))
    case AdminCreate(r) => Create(st, r, body, env.freshId, env.now)
    case AdminUpdate(r, id) => Update(st, r, id, body, env.now)
    case AdminDelete(r, id) => Delete(st, r, id)
    case AdminSettingsGet => Reply(st, 200, ReadSettings(st))
    case AdminSettingsPut => Reply(WriteSettings(st, body), 200, VObj(body))
  }

  /** One request: the gate decides for guarded routes, and a refusal
      answers 401 without running the handler. */
  function Handle(st: Store, route: Route, authorization: Option<string>, body: Record, env: Env): (rep: Reply)
    requires Registered(route)
    ensures Guarded(route) && Gate(authorization, env.verify).Refuse? ==>
      rep == Reply(st, 401, ErrorBody(Gate(authorization, env.verify).message))
    ensures Guarded(route) && Gate(authorization, env.verify).Admit? ==>
      rep == Serve(st, route, body, Gate(authorization, env.verify).claims, env)
    ensures !Guarded(route) ==> rep == Serve(st, route, body, map[], env)
  {
    if !Guarded(route) then Serve(st, route, body, map[], env)
    else match Gate(authorization, env.verify)
      case Refuse(message) => Reply(st, 401, ErrorBody(message))
      case Admit(claims) => Serve(st, route, body, claims, env)
  }

  /** Only the public inquiry form and requests that passed the gate change
      the store; logging in never does. */
  lemma WritesNeedGate(st: Store, route: Route, authorization: Option<string>, body: Record, env: Env)
    requires Registered(route)
    ensures Handle(st, route, authorization, body, env).store != st ==>
      route.InquirySubmit? || (Guarded(route) && Gate(authorization, env.verify).Admit?)
  {
  }

  /** Without an Authorization header every guarded route answers 401
      "No token provided" and writes nothing. */
  lemma AnonymousRefused(st: Store, route: Route, body: Record, env: Env)
    requires Registered(route) && Guarded(route)
    ensures Handle(st, route, None, body, env) == Reply(st, 401, ErrorBody(NoToken))
  {
    NoHeaderRefused(env.verify);
  }

  /** Settings written through the admin route are what the public route
      reads back. */
  lemma SettingsPutThenGet(st: Store, authorization: Option<string>, body: Record, env: Env)
    requires Gate(authorization, env.verify).Admit?
    ensures var put := Handle(st, AdminSettingsPut, authorization, body, env);
      && put.status == 200 && put.body == VObj(body)
      && Handle(put.store, SettingsGet, None, map[], env).body == VObj(body)
  {
  }

  /** A store whose only user has the given e-mail admits that user's
      login whenever the password check accepts. */
  lemma SoleUserLogin(st: Store, u: Record, body: Record, env: Env)
    requires Read(st, Users) == [u]
    requires StrictEq(Get(u, "email"), Get(body, "email"))
    requires env.compare(Get(body, "password"), Get(u, "password")) == Matches
    ensures var rep := Handle(st, LoginRoute, None, body, env);
      && rep.status == 200
      && rep.body == VObj(map["token" := VStr(env.sign(Claims(u))), "user" := VObj(View(u))])
  {
    var users := Read(st, Users);
    assert HasEmail(users[0], Get(body, "email"));
  }

  /** On a freshly seeded store the default administrator can log in with
      the default e-mail whenever the password check accepts the given
      password against the seeded hash. */
  lemma FreshAdminLogin(ids: nat -> string, passwordHash: string, now: string, password: string, env: Env)
    requires env.compare(Some(VStr(password)), Some(VStr(passwordHash))) == Matches
    ensures var st := Initialize(Empty, SourceDefaults(ids, passwordHash, now));
      var body := map["email" := VStr("admin@gaushalafresh.com"), "password" := VStr(password)];
      Handle(st, LoginRoute, None, body, env).status == 200
  {
    var st := Initialize(Empty, SourceDefaults(ids, passwordHash, now));
    var body := map["email" := VStr("admin@gaushalafresh.com"), "password" := VStr(password)];
    FreshStoreSeeds(ids, passwordHash, now);
    AdminSeed(ids, passwordHash, now);
    var u := DefaultUsers(ids, passwordHash, now)[0];
    assert Read(st, Users) == [u];
    SoleUserLogin(st, u, body, env);
  }
}
