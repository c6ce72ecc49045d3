/** The string handling the JavaScript operators in the handlers and pages
    rely on: the whitespace class, trimming, and the number a value turns
    into under arithmetic (`ToNumber` of the ECMAScript language, as the
    `-` of a sort comparator applies it). */
module Text {
  import opened Json

  /** The characters the regular expression class `\s` matches; the same
      set `Number(s)` trims. */
  predicate IsSpace(c: char) {
    c == ' ' || c == '\t' || c == '\n' || c == '\r' || c == '\U{000B}' || c == '\U{000C}'
    || c == '\U{00A0}' || c == '\U{1680}' || ('\U{2000}' <= c <= '\U{200A}')
    || c == '\U{2028}' || c == '\U{2029}' || c == '\U{202F}' || c == '\U{205F}'
    || c == '\U{3000}' || c == '\U{FEFF}'
  }

  predicate AllSpace(s: string) {
    forall i :: 0 <= i < |s| ==> IsSpace(s[i])
  }

  /** The whitespace at the front of `s` removed. */
  function DropSpaces(s: string): (r: string)
    ensures |r| <= |s|
    ensures r == s[|s| - |r|..]
    ensures |r| > 0 ==> !IsSpace(r[0])
    ensures forall i :: 0 <= i < |s| - |r| ==> IsSpace(s[i])
  {
    if |s| > 0 && IsSpace(s[0]) then DropSpaces(s[1..]) else s
  }

  /** The whitespace at the end of `s` removed. */
  function DropSpacesEnd(s: string): (r: string)
    ensures |r| <= |s|
    ensures r == s[..|r|]
    ensures |r| > 0 ==> !IsSpace(r[|r| - 1])
    ensures forall i :: |r| <= i < |s| ==> IsSpace(s[i])
  {
    if |s| > 0 && IsSpace(s[|s| - 1]) then DropSpacesEnd(s[..|s| - 1]) else s
  }

  /** Leading whitespace in front of a non-space character does not reach
      past it: dropping it from `x + y` drops it from `x` alone. */
  lemma {:induction false} DropSpacesAppend(x: string, y: string)
    requires exists i :: 0 <= i < |x| && !IsSpace(x[i])
    ensures DropSpaces(x + y) == DropSpaces(x) + y
    decreases |x|
  {
    if IsSpace(x[0]) {
      var i :| 0 <= i < |x| && !IsSpace(x[i]);
      assert !IsSpace(x[1..][i - 1]);
      assert (x + y)[1..] == x[1..] + y;
      DropSpacesAppend(x[1..], y);
    }
  }

  /** A run of whitespace in front of a word is dropped entirely. */
  lemma {:induction false} DropSpacesAll(w: string, b: string)
    requires AllSpace(w)
    requires |b| == 0 || !IsSpace(b[0])
    ensures DropSpaces(w + b) == b
    decreases |w|
  {
    if |w| == 0 {
      assert w + b == b;
    } else {
      assert (w + b)[1..] == w[1..] + b;
      DropSpacesAll(w[1..], b);
    }
  }

  lemma {:induction false} DropSpacesEndAll(a: string, w: string)
    requires AllSpace(w)
    requires |a| == 0 || !IsSpace(a[|a| - 1])
    ensures DropSpacesEnd(a + w) == a
    decreases |w|
  {
    if |w| == 0 {
      assert a + w == a;
    } else {
      assert (a + w)[..|a + w| - 1] == a + w[..|w| - 1];
      DropSpacesEndAll(a, w[..|w| - 1]);
    }
  }

  /** `s.trim()`. */
  function Trim(s: string): (t: string)
    ensures |t| > 0 ==> !IsSpace(t[0]) && !IsSpace(t[|t| - 1])
  {
    DropSpacesEnd(DropSpaces(s))
  }

  /** Whitespace around a word is exactly what trimming removes. */
  lemma TrimPadding(u: string, s: string, v: string)
    requires AllSpace(u) && AllSpace(v)
    requires |s| > 0 && !IsSpace(s[0]) && !IsSpace(s[|s| - 1])
    ensures Trim(u + s + v) == s
  {
    assert u + s + v == u + (s + v);
    DropSpacesAll(u, s + v);
    DropSpacesEndAll(s, v);
  }

  predicate IsDigit(c: char) { '0' <= c <= '9' }

  predicate AllDigits(s: string) {
    forall i :: 0 <= i < |s| ==> IsDigit(s[i])
  }

  /** The value of a string of decimal digits, most significant first. */
  function DigitsValue(s: string): nat
    requires AllDigits(s)
    decreases |s|
  {
    if |s| == 0 then 0
    else DigitsValue(s[..|s| - 1]) * 10 + (s[|s| - 1] as int - '0' as int)
  }

  /** The decimal digits of `n`, without leading zeros. */
  function ShowNat(n: nat): (s: string)
    ensures |s| > 0 && AllDigits(s)
    decreases n
  {
    if n < 10 then [('0' as int + n) as char]
    else ShowNat(n / 10) + [('0' as int + n % 10) as char]
  }

  /** `String(n)` for an integer. */
  function ShowInt(n: int): (s: string)
    ensures |s| > 0 && !IsSpace(s[0]) && !IsSpace(s[|s| - 1])
  {
    if n < 0 then "-" + ShowNat(-n) else ShowNat(n)
  }

  /** The number an already trimmed text denotes: the empty text is 0, an
      optional sign is followed by decimal digits, and anything else is NaN
      (`None`). */
  function ReadInteger(t: string): (r: Option<int>)
    ensures t == "" ==> r == Some(0)
    ensures AllDigits(t) ==> r == Some(DigitsValue(t))
    ensures r.Some? <==> (t == "" || AllDigits(t) || (|t| > 1 && (t[0] == '-' || t[0] == '+') && AllDigits(t[1..])))
    ensures |t| > 1 && t[0] == '-' && AllDigits(t[1..]) ==> r == Some(-(DigitsValue(t[1..]) as int))
    ensures |t| > 1 && t[0] == '+' && AllDigits(t[1..]) ==> r == Some(DigitsValue(t[1..]))
  {
    if |t| == 0 then Some(0)
    else if AllDigits(t) then Some(DigitsValue(t))
    else if |t| > 1 && (t[0] == '-' || t[0] == '+') && AllDigits(t[1..]) then
      var m: int := DigitsValue(t[1..]);
      Some(if t[0] == '-' then -m else m)
    else None
  }

  /** `Number(s)` on the integer literals a form or a JSON file carries:
      surrounding whitespace is ignored, and the rest is read by
      `ReadInteger`. */
  function StringToNumber(s: string): (r: Option<int>)
    ensures Trim(s) == "" ==> r == Some(0)
    ensures AllDigits(Trim(s)) ==> r == Some(DigitsValue(Trim(s)))
    ensures |Trim(s)| > 0 && !IsDigit(Trim(s)[0]) && Trim(s)[0] != '-' && Trim(s)[0] != '+' ==> r.None?
    ensures r.Some? <==> (Trim(s) == "" || AllDigits(Trim(s))
      || (|Trim(s)| > 1 && (Trim(s)[0] == '-' || Trim(s)[0] == '+') && AllDigits(Trim(s)[1..])))
    ensures |Trim(s)| > 1 && Trim(s)[0] == '-' && AllDigits(Trim(s)[1..]) ==> r == Some(-(DigitsValue(Trim(s)[1..]) as int))
    ensures |Trim(s)| > 1 && Trim(s)[0] == '+' && AllDigits(Trim(s)[1..]) ==> r == Some(DigitsValue(Trim(s)[1..]))
  {
    ReadInteger(Trim(s))
  }

  /** Reading back what `String(n)` prints gives `n`. */
  lemma {:induction false} DigitsShowNat(n: nat)
    ensures DigitsValue(ShowNat(n)) == n
    decreases n
  {
    if n >= 10 {
      DigitsShowNat(n / 10);
      var s := ShowNat(n);
      assert s[..|s| - 1] == ShowNat(n / 10);
    }
  }

  /** Printing an integer and converting it back is the identity, and so
      is doing it with whitespace around the digits. */
  lemma ShowIntRoundTrip(n: int, u: string, v: string)
    requires AllSpace(u) && AllSpace(v)
    ensures StringToNumber(u + ShowInt(n) + v) == Some(n)
  {
    var s := ShowInt(n);
    TrimPadding(u, s, v);
    if n < 0 {
      DigitsShowNat(-n);
      assert s[1..] == ShowNat(-n);
      assert !IsDigit(s[0]);
    } else {
      DigitsShowNat(n);
    }
  }

  /** `ToNumber(v)` of a present value, with `None` for NaN. `null` and
      `false` are 0, `true` is 1, a string is read by `StringToNumber`, an
      array is converted through its comma-joined text (empty: 0; one
      element: that element's text, which for a boolean is `true` or `false`
      and so NaN; more: the text has a comma, so NaN),
      and an object is NaN. */
  function NumberOf(x: Value): (r: Option<int>)
    ensures x.VObj? ==> r.None?
    ensures x == VNull || x == VBool(false) ==> r == Some(0)
    ensures x == VBool(true) ==> r == Some(1)
    ensures x.VNum? ==> r == Some(x.n)
    ensures x.VStr? ==> r == StringToNumber(x.s)
    ensures x.VList? && |x.items| == 0 ==> r == Some(0)
    ensures x.VList? && |x.items| >= 2 ==> r.None?
    ensures x.VList? && |x.items| == 1 && x.items[0].VBool? ==> r.None?
    ensures x.VList? && |x.items| == 1 && !x.items[0].VBool? ==> r == NumberOf(x.items[0])
    decreases x
  {
    match x
    case VNull => Some(0)
    case VBool(b) => Some(if b then 1 else 0)
    case VNum(n) => Some(n)
    case VStr(s) => StringToNumber(s)
    case VObj(_) => None
    case VList(items) =>
      if |items| == 0 then Some(0)
      else if |items| >= 2 || items[0].VBool? then None
      else NumberOf(items[0])
  }

  /** `ToNumber` of a property: `undefined` is NaN. */
  function ToNumber(v: Option<Value>): (r: Option<int>)
    ensures v.None? ==> r.None?
    ensures v == Some(VNull) ==> r == Some(0)
    ensures v.Some? && v.value.VNum? ==> r == Some(v.value.n)
    ensures v.Some? && v.value.VStr? ==> r == StringToNumber(v.value.s)
    ensures v.Some? && v.value.VObj? ==> r.None?
    ensures v.Some? && v.value.VBool? ==> r == Some(if v.value.b then 1 else 0)
    ensures v.Some? && v.value.VList? ==> r == NumberOf(v.value)
  {
    match v
    case None => None
    case Some(x) => NumberOf(x)
  }
}
