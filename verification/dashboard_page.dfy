/** The admin dashboard (src/pages/DashboardPage.tsx): the relative time of
    an inquiry, the five most recent inquiries, and the stat cards with
    their "new" badge. */
module DashboardPage {
  import opened Json
  import opened Seqs
  import opened Store
  import opened Reads

  const HourMs := 1000 * 60 * 60

  /** The label `formatDate` produces. `DateString` is the locale date
      `toLocaleDateString` prints. */
  datatype Label = JustNow | HoursAgo(hours: int) | DaysAgo(days: int) | DateString

  /** `formatDate`: `now` and `date` are milliseconds since the epoch, and
      `date` is `None` for a string `new Date` cannot parse, whose NaN
      arithmetic fails every comparison. Dafny's division by a positive
      number rounds down, as `Math.floor` does. */
  function FormatDate(now: int, date: Option<int>): (l: Label)
    ensures date.None? ==> l == DateString
    ensures l == JustNow ==> date.Some? && now - date.value < HourMs
    ensures l.HoursAgo? ==>
      (date.Some? && 1 <= l.hours <= 23 && l.hours * HourMs <= now - date.value < (l.hours + 1) * HourMs)
    ensures l.DaysAgo? ==>
      (date.Some? && 1 <= l.days <= 6 && l.days * 24 * HourMs <= now - date.value < (l.days + 1) * 24 * HourMs)
  {
    match date
    case None => DateString
    case Some(t) =>
      var hours := (now - t) / HourMs;
      var days := hours / 24;
      if hours < 1 then JustNow
      else if hours < 24 then HoursAgo(hours)
      else if days < 7 then DaysAgo(days)
      else DateString
  }

  /** "Just now" exactly for parsed dates less than an hour old, future
      dates included. */
  lemma JustNowWindow(now: int, t: int)
    ensures FormatDate(now, Some(t)) == JustNow <==> now - t < HourMs
  {
  }

  /** "Nh ago" exactly for ages of one to twenty-three full hours. */
  lemma HoursWindow(now: int, t: int)
    ensures FormatDate(now, Some(t)).HoursAgo? <==> HourMs <= now - t < 24 * HourMs
    ensures FormatDate(now, Some(t)).HoursAgo? ==>
      1 <= FormatDate(now, Some(t)).hours <= 23
      && FormatDate(now, Some(t)).hours * HourMs <= now - t < (FormatDate(now, Some(t)).hours + 1) * HourMs
  {
  }

  /** "Nd ago" exactly for ages of one to six full days, with N from 1 to 6. */
  lemma DaysWindow(now: int, t: int)
    ensures FormatDate(now, Some(t)).DaysAgo? <==> 24 * HourMs <= now - t < 7 * 24 * HourMs
    ensures FormatDate(now, Some(t)).DaysAgo? ==> 1 <= FormatDate(now, Some(t)).days <= 6
  {
    var hours := (now - t) / HourMs;
    assert hours < 168 <==> now - t < 168 * HourMs;
  }

  /** Everything a week old or older, and every unparsable date, shows the
      date itself. */
  lemma DateWindow(now: int, date: Option<int>)
    ensures FormatDate(now, date) == DateString <==> date.None? || now - date.value >= 7 * 24 * HourMs
  {
    if date.Some? {
      var hours := (now - date.value) / HourMs;
      assert hours < 168 <==> now - date.value < 168 * HourMs;
    }
  }

  /** `inquiries.slice(0, 5)`. */
  function Recent(inquiries: seq<Record>): (r: seq<Record>)
    ensures |r| == if |inquiries| < 5 then |inquiries| else 5
    ensures r == inquiries[..|r|]
  {
    Take(inquiries, 5)
  }

  /** Taken from the admin list, which is newest first, the recent five are
      at least as new as every inquiry left out. */
  lemma RecentAreNewest(st: Store, timeOf: Option<Value> -> int)
    ensures var all := AdminInquiries(st, timeOf);
      var recent := Recent(all);
      forall i, j :: 0 <= i < |recent| && |recent| <= j < |all| ==>
        timeOf(Get(recent[i], "createdAt")) >= timeOf(Get(all[j], "createdAt"))
  {
  }

  /** `stats?.[key] ?? 0`: the count, or 0 while the stats are not loaded
      or when the key is missing or null. */
  function StatDisplay(stats: Option<Record>, key: string): (v: Value)
    ensures v != VNull
    ensures stats.Some? && Get(stats.value, key).Some? && Get(stats.value, key).value != VNull
            ==> v == stats.value[key]
    ensures stats.None? || Get(stats.value, key).None? || Get(stats.value, key) == Some(VNull)
            ==> v == VNum(0)
  {
    match stats
    case None => VNum(0)
    case Some(m) =>
      match Get(m, key)
      case None => VNum(0)
      case Some(VNull) => VNum(0)
      case Some(x) => x
  }

  /** The "N new" badge of a card: shown only on the inquiries card, and
      only when `newInquiries` is truthy, with that value. */
  function Badge(stats: Option<Record>, key: string): (b: Option<Value>)
    ensures b.Some? <==> key == "inquiries" && stats.Some? && Truthy(Get(stats.value, "newInquiries"))
    ensures b.Some? ==> Some(b.value) == Get(stats.value, "newInquiries")
  {
    if key == "inquiries" && stats.Some? && Truthy(Get(stats.value, "newInquiries"))
    then Get(stats.value, "newInquiries")
    else None
  }

  /** With the server's stats, each card shows its collection's size, and
      the inquiries card carries a badge exactly when some inquiry is still
      new. */
  lemma CardsShowServerCounts(st: Store)
    ensures StatDisplay(Some(Stats(st)), "products") == VNum(|Read(st, Products)|)
    ensures StatDisplay(Some(Stats(st)), "testimonials") == VNum(|Read(st, Testimonials)|)
    ensures StatDisplay(Some(Stats(st)), "banners") == VNum(|Read(st, Banners)|)
    ensures StatDisplay(Some(Stats(st)), "inquiries") == VNum(|Read(st, Inquiries)|)
    ensures Badge(Some(Stats(st)), "inquiries").Some?
            <==> exists i :: 0 <= i < |Read(st, Inquiries)| && IsNew(Read(st, Inquiries)[i])
  {
    NewCountZero(Read(st, Inquiries));
  }
}
