/** The product editor of the admin client (src/pages/ProductsPage.tsx):
    slug derivation and the save decision, the variant and image list edits,
    the upload gate and the name search. The product being edited is an
    optional record; `None` is the editor's `null` state. */
module ProductsPage {
  import opened Json
  import opened Seqs
  import opened Text

  // ---------------------------------------------------------------- text

  function LowerChar(c: char): (l: char)
    ensures IsSpace(l) <==> IsSpace(c)
    ensures !('A' <= l <= 'Z')
  {
    if 'A' <= c <= 'Z' then (c as int + 32) as char else c
  }

  /** `s.toLowerCase()` on the ASCII letters. */
  function Lower(s: string): (l: string)
    ensures |l| == |s|
    ensures forall i :: 0 <= i < |s| ==> l[i] == LowerChar(s[i])
  {
    seq(|s|, i requires 0 <= i < |s| => LowerChar(s[i]))
  }

  lemma LowerIdempotent(s: string)
    ensures Lower(Lower(s)) == Lower(s)
  {
  }

  /** `s.replace(/\s+/g, '-')`: each maximal run of whitespace becomes one
      hyphen. */
  function ReplaceRuns(s: string): (r: string)
    ensures |r| <= |s|
    ensures forall i :: 0 <= i < |r| ==> !IsSpace(r[i])
    decreases |s|
  {
    if |s| == 0 then ""
    else if IsSpace(s[0]) then "-" + ReplaceRuns(DropSpaces(s[1..]))
    else [s[0]] + ReplaceRuns(s[1..])
  }

  /** The characters other than whitespace and hyphens survive the
      replacement unchanged and in order. */
  lemma {:induction false} ReplaceRunsKeepsText(s: string)
    ensures Filter(ReplaceRuns(s), Plain) == Filter(s, Plain)
    decreases |s|
  {
    if |s| > 0 {
      if IsSpace(s[0]) {
        var t := DropSpaces(s[1..]);
        ReplaceRunsKeepsText(t);
        FilterAppend("-", ReplaceRuns(t), Plain);
        assert s[1..] == s[1..|s| - |t|] + t;
        FilterAppend(s[1..|s| - |t|], t, Plain);
        FilterNone(s[1..|s| - |t|], Plain);
        assert s == [s[0]] + s[1..];
        FilterAppend([s[0]], s[1..], Plain);
      } else {
        ReplaceRunsKeepsText(s[1..]);
        FilterAppend([s[0]], ReplaceRuns(s[1..]), Plain);
        assert s == [s[0]] + s[1..];
        FilterAppend([s[0]], s[1..], Plain);
      }
    }
  }

  /** A string without whitespace is left as it is. */
  lemma {:induction false} ReplaceRunsNoSpace(s: string)
    requires forall i :: 0 <= i < |s| ==> !IsSpace(s[i])
    ensures ReplaceRuns(s) == s
    decreases |s|
  {
    if |s| > 0 {
      ReplaceRunsNoSpace(s[1..]);
      assert s == [s[0]] + s[1..];
    }
  }

  predicate Plain(c: char) { !IsSpace(c) && c != '-' }

  /** The slug derived from a product name. */
  function DeriveSlug(name: string): (slug: string)
    ensures |slug| <= |name|
    ensures forall i :: 0 <= i < |slug| ==> !IsSpace(slug[i]) && !('A' <= slug[i] <= 'Z')
    ensures Filter(slug, Plain) == Filter(Lower(name), Plain)
  {
    var r := ReplaceRuns(Lower(name));
    ReplaceRunsKeepsText(Lower(name));
    assert forall i :: 0 <= i < |r| ==> !('A' <= r[i] <= 'Z') by {
      LowerKeepsUpperOut(Lower(name));
    }
    r
  }

  lemma LowerKeepsUpperOut(s: string)
    requires forall i :: 0 <= i < |s| ==> !('A' <= s[i] <= 'Z')
    ensures forall i :: 0 <= i < |ReplaceRuns(s)| ==> !('A' <= ReplaceRuns(s)[i] <= 'Z')
  {
    forall i | 0 <= i < |ReplaceRuns(s)| ensures !('A' <= ReplaceRuns(s)[i] <= 'Z') {
      ReplaceRunsFrom(s, ReplaceRuns(s)[i]);
    }
  }

  /** Every character of the replacement is a hyphen or comes from `s`. */
  lemma {:induction false} ReplaceRunsFrom(s: string, c: char)
    requires c in ReplaceRuns(s)
    ensures c == '-' || c in s
    decreases |s|
  {
    if |s| > 0 {
      if IsSpace(s[0]) {
        var t := DropSpaces(s[1..]);
        if c != '-' {
          assert c in ReplaceRuns(t);
          ReplaceRunsFrom(t, c);
          assert t == s[|s| - |t|..];
        }
      } else if c != s[0] {
        assert c in ReplaceRuns(s[1..]);
        ReplaceRunsFrom(s[1..], c);
      }
    }
  }

  /** Each maximal whitespace run becomes exactly one hyphen: a run `w`
      between text that does not end in whitespace and text that does not
      start with it is replaced by `-`, and the two sides are replaced on
      their own. With `ReplaceRunsNoSpace` this determines the replacement
      of every string. */
  lemma {:induction false} ReplaceRunsRun(a: string, w: string, b: string)
    requires |w| > 0 && AllSpace(w)
    requires |a| == 0 || !IsSpace(a[|a| - 1])
    requires |b| == 0 || !IsSpace(b[0])
    ensures ReplaceRuns(a + w + b) == ReplaceRuns(a) + "-" + ReplaceRuns(b)
    decreases |a|, 1
  {
    if |a| == 0 {
      RunAtStart(w, b);
      assert a + w + b == w + b;
    } else if IsSpace(a[0]) {
      RunAfterLeadingSpace(a, w, b);
    } else {
      RunAfterLeadingWord(a, w, b);
    }
  }

  /** A leading run becomes a leading hyphen. */
  lemma RunAtStart(w: string, b: string)
    requires |w| > 0 && AllSpace(w)
    requires |b| == 0 || !IsSpace(b[0])
    ensures ReplaceRuns(w + b) == "-" + ReplaceRuns(b)
  {
    assert w + b == [w[0]] + (w[1..] + b);
    ReplaceRunsCons(w[0], w[1..] + b);
    DropSpacesAll(w[1..], b);
  }

  /** The case of `ReplaceRunsRun` where `a` opens with a non-space. */
  lemma {:induction false} RunAfterLeadingWord(a: string, w: string, b: string)
    requires |w| > 0 && AllSpace(w)
    requires |a| > 0 && !IsSpace(a[0]) && !IsSpace(a[|a| - 1])
    requires |b| == 0 || !IsSpace(b[0])
    ensures ReplaceRuns(a + w + b) == ReplaceRuns(a) + "-" + ReplaceRuns(b)
    decreases |a|, 0
  {
    var x := a[1..];
    Regroup(a, w, b);
    ReplaceRunsCons(a[0], x + w + b);
    ReplaceRunsCons(a[0], x);
    ReplaceRunsRun(x, w, b);
    Assoc([a[0]], ReplaceRuns(x) + "-", ReplaceRuns(b));
    Assoc([a[0]], ReplaceRuns(x), "-");
  }

  /** The ways of splitting `a + w + b` the run lemma needs. */
  lemma Regroup(a: string, w: string, b: string)
    requires |a| > 0
    ensures a == [a[0]] + a[1..]
    ensures a + w + b == [a[0]] + (a[1..] + w + b)
    ensures a + w + b == [a[0]] + (a[1..] + (w + b))
  {
  }

  lemma Assoc(a: string, w: string, b: string)
    ensures a + w + b == a + (w + b)
  {
  }

  /** The case of `ReplaceRunsRun` where `a` opens with whitespace. */
  lemma {:induction false} RunAfterLeadingSpace(a: string, w: string, b: string)
    requires |w| > 0 && AllSpace(w)
    requires |a| > 0 && IsSpace(a[0]) && !IsSpace(a[|a| - 1])
    requires |b| == 0 || !IsSpace(b[0])
    ensures ReplaceRuns(a + w + b) == ReplaceRuns(a) + "-" + ReplaceRuns(b)
    decreases |a|, 0
  {
    var x := a[1..];
    var t := DropSpaces(x);
    RunAfterSpace(x, w + b);
    ReplaceRunsRun(t, w, b);
    Regroup(a, w, b);
    Assoc(t, w, b);
    ReplaceRunsCons(a[0], x + (w + b));
    ReplaceRunsCons(a[0], x);
    Assoc("-", ReplaceRuns(t) + "-", ReplaceRuns(b));
    Assoc("-", ReplaceRuns(t), "-");
  }

  /** `ReplaceRuns` on a string with a known first character. */
  lemma ReplaceRunsCons(c: char, s: string)
    ensures IsSpace(c) ==> ReplaceRuns([c] + s) == "-" + ReplaceRuns(DropSpaces(s))
    ensures !IsSpace(c) ==> ReplaceRuns([c] + s) == [c] + ReplaceRuns(s)
  {
    assert ([c] + s)[0] == c && ([c] + s)[1..] == s;
  }

  /** Text that ends in a non-space keeps doing so once its leading
      whitespace is dropped, and that whitespace does not reach past it. */
  lemma RunAfterSpace(x: string, y: string)
    requires |x| > 0 && !IsSpace(x[|x| - 1])
    ensures DropSpaces(x + y) == DropSpaces(x) + y
    ensures |DropSpaces(x)| > 0 && !IsSpace(DropSpaces(x)[|DropSpaces(x)| - 1])
  {
    DropSpacesAppend(x, y);
    var t := DropSpaces(x);
    assert t == x[|x| - |t|..];
  }

  /** Deriving a slug from a derived slug changes nothing. */
  lemma DeriveSlugIdempotent(name: string)
    ensures DeriveSlug(DeriveSlug(name)) == DeriveSlug(name)
  {
    var s := DeriveSlug(name);
    assert Lower(s) == s;
    ReplaceRunsNoSpace(s);
  }

  /** The slug of a name is the lower-cased name with each maximal
      whitespace run turned into one hyphen. */
  lemma DeriveSlugRuns(a: string, w: string, b: string)
    requires |w| > 0 && AllSpace(w)
    requires |a| == 0 || !IsSpace(a[|a| - 1])
    requires |b| == 0 || !IsSpace(b[0])
    ensures DeriveSlug(a + w + b) == DeriveSlug(a) + "-" + DeriveSlug(b)
  {
    assert Lower(a + w + b) == Lower(a) + Lower(w) + Lower(b);
    assert |Lower(a)| == 0 || !IsSpace(Lower(a)[|a| - 1]);
    ReplaceRunsRun(Lower(a), Lower(w), Lower(b));
  }

  /** A name without whitespace gives its lower-cased self as slug. */
  lemma DeriveSlugWord(name: string)
    requires forall i :: 0 <= i < |name| ==> !IsSpace(name[i])
    ensures DeriveSlug(name) == Lower(name)
  {
    ReplaceRunsNoSpace(Lower(name));
  }

  /** `editingProduct.slug || editingProduct.name.toLowerCase().replace(...)`:
      a truthy slug is kept, otherwise one is derived from a string name;
      `None` when the name is not a string and the derivation would throw. */
  function Slug(product: Record): (s: Option<Value>)
    ensures Truthy(Get(product, "slug")) ==> s == Get(product, "slug")
    ensures !Truthy(Get(product, "slug")) && Get(product, "name").Some? && Get(product, "name").value.VStr?
            ==> s == Some(VStr(DeriveSlug(Get(product, "name").value.s)))
    ensures s.None? <==> !Truthy(Get(product, "slug")) && !(Get(product, "name").Some? && Get(product, "name").value.VStr?)
  {
    if Truthy(Get(product, "slug")) then Get(product, "slug")
    else match Get(product, "name")
      case Some(VStr(name)) => Some(VStr(DeriveSlug(name)))
      case _ => None
  }

  // ---------------------------------------------------------------- saving

  /** What `handleSave` sends to the API. */
  datatype SaveAction = NoCall | CallUpdate(id: Value, data: Record) | CallCreate(data: Record)

  /** `handleSave`: nothing without a name; otherwise the product with its
      slug is sent to the update route when it has an id, to the create
      route when it has none. A name that is truthy but not a string makes
      the slug derivation throw inside the `try`, so nothing is sent. */
  function Save(editing: Option<Record>): (a: SaveAction)
    ensures a.NoCall? <==>
      editing.None? || !Truthy(Get(editing.value, "name")) || Slug(editing.value).None?
    ensures !a.NoCall? ==> (a.CallUpdate? <==> Truthy(Get(editing.value, "id")))
    ensures a.CallUpdate? ==> Some(a.id) == Get(editing.value, "id")
    ensures !a.NoCall? ==>
      && "slug" in a.data
      && a.data - {"slug"} == editing.value - {"slug"}
      && Some(a.data["slug"]) == Slug(editing.value)
  {
    match editing
    case None => NoCall
    case Some(p) =>
      if !Truthy(Get(p, "name")) then NoCall
      else match Slug(p)
        case None => NoCall
        case Some(slug) =>
          var data := p["slug" := slug];
          if Truthy(Get(p, "id")) then CallUpdate(p["id"], data) else CallCreate(data)
  }

  /** Editing a saved product that already has a slug sends the product
      exactly as edited to the update route, whatever its name holds. */
  lemma SaveExisting(p: Record)
    requires Truthy(Get(p, "name")) && Truthy(Get(p, "slug")) && Truthy(Get(p, "id"))
    ensures Save(Some(p)) == CallUpdate(p["id"], p)
  {
    assert p["slug" := p["slug"]] == p;
  }

  /** A named product is always sent, and its slug never contains
      whitespace unless the editor typed one in. */
  lemma SaveNamedProduct(p: Record, name: string)
    requires Get(p, "name") == Some(VStr(name)) && name != ""
    requires !Truthy(Get(p, "slug"))
    ensures var a := Save(Some(p));
      && !a.NoCall?
      && a.data["slug"].VStr?
      && forall i :: 0 <= i < |a.data["slug"].s| ==> !IsSpace(a.data["slug"].s[i])
  {
  }

  // ---------------------------------------------------------------- variants

  function Variants(p: Record): seq<Value> { ListOr(Get(p, "variants")) }

  /** `updateVariant(index, field, value)`: the variant at `index` gets
      `field` set, nothing else changes. The form only offers indices of
      existing variants. */
  function UpdateVariant(editing: Option<Record>, index: nat, field: string, value: Value): (e: Option<Record>)
    requires editing.Some? ==> index < |Variants(editing.value)|
    ensures editing.None? ==> e.None?
    ensures editing.Some? ==>
      var p := editing.value;
      && e.Some?
      && e.value - {"variants"} == p - {"variants"}
      && Get(e.value, "variants").Some? && Get(e.value, "variants").value.VList?
      && |Variants(e.value)| == |Variants(p)|
      && (forall j :: 0 <= j < |Variants(p)| && j != index ==> Variants(e.value)[j] == Variants(p)[j])
      && Variants(e.value)[index] == VObj(Spread(Some(Variants(p)[index]))[field := value])
  {
    match editing
    case None => None
    case Some(p) =>
      var vs := Variants(p);
      Some(p["variants" := VList(vs[index := VObj(Spread(Some(vs[index]))[field := value])])])
  }

  /** The variant `addVariant` appends. */
  function BlankVariant(id: string): Value {
    VObj(map["id" := VStr(id), "size" := VStr(""), "price" := VNum(0), "unit" := VStr(""),
             "stockStatus" := VStr("in_stock")])
  }

  /** `addVariant`: appends one blank variant with a fresh id. */
  function AddVariant(editing: Option<Record>, freshId: string): (e: Option<Record>)
    ensures editing.None? ==> e.None?
    ensures editing.Some? ==>
      && e.Some?
      && e.value - {"variants"} == editing.value - {"variants"}
      && Variants(e.value) == Variants(editing.value) + [BlankVariant(freshId)]
  {
    match editing
    case None => None
    case Some(p) => Some(p["variants" := VList(Variants(p) + [BlankVariant(freshId)])])
  }

  /** `removeVariant(index)`: `splice(index, 1)`, a no-op past the end. */
  function RemoveVariant(editing: Option<Record>, index: nat): (e: Option<Record>)
    ensures editing.None? ==> e.None?
    ensures editing.Some? ==>
      && e.Some?
      && e.value - {"variants"} == editing.value - {"variants"}
      && Variants(e.value) == RemoveAt(Variants(editing.value), index)
  {
    match editing
    case None => None
    case Some(p) => Some(p["variants" := VList(RemoveAt(Variants(p), index))])
  }

  /** Removing at an index takes out exactly that element. */
  lemma RemoveAtExactly<T>(s: seq<T>, i: nat)
    requires i < |s|
    ensures multiset(RemoveAt(s, i)) == multiset(s) - multiset{s[i]}
    ensures RemoveAt(s, i) == s[..i] + s[i + 1..]
  {
    assert s == s[..i] + [s[i]] + s[i + 1..];
    assert RemoveAt(s, i) == s[..i] + s[i + 1..];
  }

  /** Adding a variant and removing it again restores the list. */
  lemma AddThenRemoveVariant(p: Record, freshId: string)
    requires Get(p, "variants").Some? && Get(p, "variants").value.VList?
    ensures var added := AddVariant(Some(p), freshId).value;
      RemoveVariant(Some(added), |Variants(p)|) == Some(p)
  {
    var added := AddVariant(Some(p), freshId).value;
    var vs := Variants(p);
    assert Variants(added) == vs + [BlankVariant(freshId)];
    assert RemoveAt(vs + [BlankVariant(freshId)], |vs|) == vs;
    assert p["variants"] == VList(vs);
    assert added["variants" := VList(vs)] == p;
  }

  /** The remove button is disabled while at most one variant remains. */
  predicate CanRemoveVariant(p: Record) {
    |Variants(p)| > 1
  }

  /** Through the form, the variant list never becomes empty once it has one. */
  lemma RemoveKeepsOneVariant(p: Record, index: nat)
    requires CanRemoveVariant(p)
    ensures |Variants(RemoveVariant(Some(p), index).value)| >= 1
  {
  }

  // ---------------------------------------------------------------- images

  function Images(p: Record): seq<Value> { ListOr(Get(p, "images")) }

  /** `removeImage(index)`. */
  function RemoveImage(editing: Option<Record>, index: nat): (e: Option<Record>)
    ensures editing.None? ==> e.None?
    ensures editing.Some? ==>
      && e.Some?
      && e.value - {"images"} == editing.value - {"images"}
      && Images(e.value) == RemoveAt(Images(editing.value), index)
  {
    match editing
    case None => None
    case Some(p) => Some(p["images" := VList(RemoveAt(Images(p), index))])
  }

  /** `splice(from, 1)` then `splice(to, 0, removed)`. */
  function Move<T>(s: seq<T>, from: nat, to: nat): (r: seq<T>)
    requires from < |s|
    ensures |r| == |s|
    ensures multiset(r) == multiset(s)
    ensures r[if to < |s| - 1 then to else |s| - 1] == s[from]
  {
    var rest := RemoveAt(s, from);
    RemoveAtExactly(s, from);
    InsertAt(rest, to, s[from])
  }

  /** `s` with the neighbours at `k` and `k + 1` exchanged. */
  function Swap<T>(s: seq<T>, k: nat): seq<T>
    requires k + 1 < |s|
  {
    s[k := s[k + 1]][k + 1 := s[k]]
  }

  /** The left arrow on image `k + 1` swaps it with its left neighbour. */
  lemma MoveLeft<T>(s: seq<T>, k: nat)
    requires k + 1 < |s|
    ensures Move(s, k + 1, k) == Swap(s, k)
  {
    var m := Move(s, k + 1, k);
    var rest := RemoveAt(s, k + 1);
    forall j | 0 <= j < |s| ensures m[j] == Swap(s, k)[j] {
      if j < k {
        assert m[j] == rest[j];
      } else if j > k + 1 {
        assert m[j] == rest[j - 1];
      } else if j == k + 1 {
        assert m[j] == rest[k];
      }
    }
  }

  /** The right arrow on image `k` swaps it with its right neighbour. */
  lemma MoveRight<T>(s: seq<T>, k: nat)
    requires k + 1 < |s|
    ensures Move(s, k, k + 1) == Swap(s, k)
  {
    var m := Move(s, k, k + 1);
    var rest := RemoveAt(s, k);
    forall j | 0 <= j < |s| ensures m[j] == Swap(s, k)[j] {
      if j < k {
        assert m[j] == rest[j];
      } else if j > k + 1 {
        assert m[j] == rest[j - 1];
      } else if j == k {
        assert m[j] == rest[k];
      }
    }
  }

  lemma SwapTwice<T>(s: seq<T>, k: nat)
    requires k + 1 < |s|
    ensures Swap(Swap(s, k), k) == s
  {
  }

  /** The arrows move an image one place, and the opposite arrow undoes the
      move. */
  lemma MoveAdjacentUndo<T>(s: seq<T>, k: nat)
    requires k + 1 < |s|
    ensures Move(Move(s, k + 1, k), k, k + 1) == s
    ensures Move(Move(s, k, k + 1), k + 1, k) == s
  {
    var w := Swap(s, k);
    SwapTwice(s, k);
    MoveLeft(s, k);
    MoveRight(w, k);
    MoveRight(s, k);
    MoveLeft(w, k);
  }

  /** `moveImage(from, to)`, as the arrows call it: `from` is an existing
      image. */
  function MoveImage(editing: Option<Record>, from: nat, to: nat): (e: Option<Record>)
    requires editing.Some? ==> from < |Images(editing.value)|
    ensures editing.None? ==> e.None?
    ensures editing.Some? ==>
      && e.Some?
      && e.value - {"images"} == editing.value - {"images"}
      && Images(e.value) == Move(Images(editing.value), from, to)
  {
    match editing
    case None => None
    case Some(p) => Some(p["images" := VList(Move(Images(p), from, to))])
  }

  // ---------------------------------------------------------------- upload

  /** A file picked in the browser: its name, MIME type and size in bytes. */
  datatype File = File(name: string, mime: string, size: int)

  const MaxUpload := 10 * 1024 * 1024

  /** The client-side gate: a MIME type starting with `image/` and at most 10 MiB. */
  predicate Accepted(f: File)
    ensures Accepted(f) <==> |f.mime| >= 6 && f.mime[..6] == "image/" && f.size <= 10485760
  {
    "image/" <= f.mime && f.size <= MaxUpload
  }

  /** The size limit is inclusive. */
  lemma UploadLimitBoundary(name: string)
    ensures Accepted(File(name, "image/png", 10485760))
    ensures !Accepted(File(name, "image/png", 10485761))
    ensures !Accepted(File(name, "text/plain", 1))
  {
    assert "text/plain"[0] != "image/"[0];
  }

  /** A server URL rooted at `/` is prefixed with the API origin. */
  function FullUrl(url: string, apiBase: string): (u: string)
    ensures |url| == 0 || url[0] != '/' ==> u == url
    ensures |url| > 0 && url[0] == '/' ==> |u| == |apiBase| + |url|
  {
    if |url| > 0 && url[0] == '/' then apiBase + url else url
  }

  /** Prefixing never alters the server's path: it is the tail of the full
      URL, and a rooted path gets exactly the API origin in front. */
  lemma FullUrlKeepsPath(url: string, apiBase: string)
    ensures var u := FullUrl(url, apiBase);
      |u| >= |url| && u[|u| - |url|..] == url
      && (|url| > 0 && url[0] == '/' ==> u[..|apiBase|] == apiBase)
  {
  }

  /** The `for` loop of `handleImageUpload`: skips rejected files and uploads
      the rest in order. `upload` stands for the upload request and answers
      the returned URL, or `None` when the request fails, which ends the
      loop through the `catch`. */
  function UploadAll(files: seq<File>, upload: File -> Option<string>, apiBase: string): (r: Option<seq<string>>)
    ensures r.None? <==> exists i :: 0 <= i < |files| && Accepted(files[i]) && upload(files[i]).None?
    ensures r.Some? ==> |r.value| == |Filter(files, Accepted)|
    ensures r.Some? ==> forall i :: 0 <= i < |r.value| ==>
      upload(Filter(files, Accepted)[i]).Some?
      && r.value[i] == FullUrl(upload(Filter(files, Accepted)[i]).value, apiBase)
    decreases |files|
  {
    if |files| == 0 then Some([])
    else
      var f := files[0];
      var rest := UploadAll(files[1..], upload, apiBase);
      assert forall i :: 1 <= i < |files| ==> files[i] == files[1..][i - 1];
      if !Accepted(f) then rest
      else match upload(f)
        case None => None
        case Some(url) =>
          match rest
          case None => None
          case Some(urls) => Some([FullUrl(url, apiBase)] + urls)
  }

  /** `handleImageUpload`: when at least one file was uploaded and none
      failed, the URLs are appended after the existing images; a `null`
      editor becomes a record holding only the images. Otherwise the editor
      is left as it was. */
  function UploadImages(editing: Option<Record>, files: seq<File>,
                        upload: File -> Option<string>, apiBase: string): (e: Option<Record>)
    ensures UploadAll(files, upload, apiBase).None? ==> e == editing
    ensures UploadAll(files, upload, apiBase).Some? && |UploadAll(files, upload, apiBase).value| == 0 ==> e == editing
    ensures UploadAll(files, upload, apiBase).Some? && |UploadAll(files, upload, apiBase).value| > 0 ==>
      var base := if editing.Some? then editing.value else map[];
      && e.Some?
      && e.value - {"images"} == base - {"images"}
      && Images(e.value) == Images(base) + Strings(UploadAll(files, upload, apiBase).value)
  {
    var urls := UploadAll(files, upload, apiBase);
    if |files| == 0 then editing
    else if urls.None? || |urls.value| == 0 then editing
    else
      var base := if editing.Some? then editing.value else map[];
      Some(base["images" := VList(Images(base) + Strings(urls.value))])
  }

  /** Rejected files never reach the server: with only rejected files the
      editor is unchanged. */
  lemma RejectedFilesIgnored(editing: Option<Record>, files: seq<File>,
                             upload: File -> Option<string>, apiBase: string)
    requires forall i :: 0 <= i < |files| ==> !Accepted(files[i])
    ensures UploadImages(editing, files, upload, apiBase) == editing
  {
    FilterNone(files, Accepted);
  }

  // ---------------------------------------------------------------- search

  /** `hay.includes(needle)`. */
  predicate Contains(hay: string, needle: string) {
    exists i :: 0 <= i <= |hay| && needle <= hay[i..]
  }

  /** A product whose `name` is a string; `toLowerCase` throws on any
      other. */
  predicate Named(p: Record) {
    Get(p, "name").Some? && Get(p, "name").value.VStr?
  }

  /** `p.name.toLowerCase().includes(needle)` for a named product. */
  predicate NameHas(p: Record, needle: string) {
    match Get(p, "name")
    case Some(VStr(name)) => Contains(Lower(name), needle)
    case _ => false
  }

  /** The filter callback for a query. */
  function Matches(query: string): Record -> bool {
    (p: Record) => NameHas(p, Lower(query))
  }

  /** `filteredProducts`: the products whose lower-cased name contains the
      lower-cased query, as a subsequence in their order. The callback runs
      on every product, so a product whose name is not a string makes the
      render throw (`None`), whatever the query. */
  function Search(products: seq<Record>, query: string): (r: Option<seq<Record>>)
    ensures r.None? <==> exists i :: 0 <= i < |products| && !Named(products[i])
    ensures r.Some? ==> At(r.value, products, KeptIndices(products, Matches(query)))
    ensures r.Some? ==> forall p :: p in r.value <==> p in products && NameHas(p, Lower(query))
  {
    if exists i :: 0 <= i < |products| && !Named(products[i]) then None
    else
      var r := Filter(products, Matches(query));
      FilterSubsequence(products, Matches(query));
      forall p ensures p in r <==> p in products && NameHas(p, Lower(query)) {
        FilterMember(products, Matches(query), p);
      }
      Some(r)
  }

  /** An empty query lists every product, in order, when every name is a
      string. */
  lemma EmptySearch(products: seq<Record>)
    requires forall i :: 0 <= i < |products| ==> Named(products[i])
    ensures Search(products, "") == Some(products)
  {
    forall i | 0 <= i < |products| ensures Matches("")(products[i]) {
      assert Lower("") == "";
      assert "" <= Lower(Get(products[i], "name").value.s)[0..];
    }
    FilterAll(products, Matches(""));
  }

  /** The search ignores the case of the query. */
  lemma SearchIgnoresCase(products: seq<Record>, query: string)
    ensures Search(products, Lower(query)) == Search(products, query)
  {
    LowerIdempotent(query);
    assert Matches(Lower(query)) == Matches(query);
  }
}
