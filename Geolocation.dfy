/** The geolocation hook: a small state record driven by a position request
    and the browser's two callbacks, and the display format for distances.
    The Haversine distance itself is not modelled; callers receive it as a
    function (see `NearestStation.DistanceFn`). */
module Geolocation {
  import opened Wrappers
  import opened Strings

  const NotSupportedMessage := "Geolocation is not supported by your browser"
  const DeniedMessage := "Location access denied. Please enable location permissions."
  const UnavailableMessage := "Location information unavailable."
  const TimeoutMessage := "Location request timed out."
  const UnknownMessage := "Unknown error occurred"

  /** The codes of a position error (PERMISSION_DENIED, POSITION_UNAVAILABLE
      and TIMEOUT of the W3C Geolocation API). */
  const PermissionDenied := 1
  const PositionUnavailable := 2
  const Timeout := 3

  /** The message shown for a position error code; every code outside the
      three known ones gets the generic message. */
  function ErrorMessage(code: int): (m: string)
    ensures code == PermissionDenied <==> m == DeniedMessage
    ensures code == PositionUnavailable <==> m == UnavailableMessage
    ensures code == Timeout <==> m == TimeoutMessage
    ensures !(PermissionDenied <= code <= Timeout) <==> m == UnknownMessage
  {
    if code == PermissionDenied then DeniedMessage
    else if code == PositionUnavailable then UnavailableMessage
    else if code == Timeout then TimeoutMessage
    else UnknownMessage
  }

  /** The hook's state. Every field may be read by the components using it. */
  class GeoState {
    var latitude: Option<real>
    var longitude: Option<real>
    var accuracy: Option<real>
    var error: Option<string>
    var loading: bool

    /** While a request is pending no error is shown, and a position is
        either wholly known or wholly unknown. */
    ghost predicate Valid()
      reads this
    {
      && (loading ==> error.None?)
      && latitude.Some? == longitude.Some?
      && longitude.Some? == accuracy.Some?
    }

    /** The initial state: nothing known, nothing pending. */
    constructor ()
      ensures latitude.None? && longitude.None? && accuracy.None?
      ensures error.None? && !loading
      ensures Valid()
    {
      latitude := None;
      longitude := None;
      accuracy := None;
      error := None;
      loading := false;
    }

    /** `getCurrentPosition`. Without browser support it reports the error at
        once; otherwise it marks the request as pending and asks the browser,
        which later calls `PositionReceived` or `PositionFailed`. The result
        says whether the browser was asked. */
    method GetCurrentPosition(supported: bool) returns (requested: bool)
      requires Valid()
      modifies this
      ensures requested == supported
      ensures !supported ==> error == Some(NotSupportedMessage) && !loading
      ensures supported ==> error.None? && loading
      ensures latitude == old(latitude) && longitude == old(longitude) && accuracy == old(accuracy)
      ensures Valid()
    {
      if !supported {
        error := Some(NotSupportedMessage);
        loading := false;
        return false;
      }
      loading := true;
      error := None;
      return true;
    }

    /** The success callback replaces the whole state with the position. */
    method PositionReceived(lat: real, lon: real, acc: real)
      modifies this
      ensures latitude == Some(lat) && longitude == Some(lon) && accuracy == Some(acc)
      ensures error.None? && !loading
      ensures Valid()
    {
      latitude := Some(lat);
      longitude := Some(lon);
      accuracy := Some(acc);
      error := None;
      loading := false;
    }

    /** The error callback shows the message for the code and keeps any
        earlier position. */
    method PositionFailed(code: int)
      requires Valid()
      modifies this
      ensures error == Some(ErrorMessage(code)) && !loading
      ensures latitude == old(latitude) && longitude == old(longitude) && accuracy == old(accuracy)
      ensures Valid()
    {
      error := Some(ErrorMessage(code));
      loading := false;
    }
  }

  /** `Math.round` on an exact value: the nearest integer, halves upwards. */
  function RoundHalfUp(x: real): (n: int)
    ensures x - 0.5 < n as real <= x + 0.5
  {
    (x + 0.5).Floor
  }

  /** What a distance is shown as: whole metres, or kilometres in
      hundredths. */
  datatype Shown = Metres(metres: int) | Kilometres(hundredths: nat)

  /** The displayed quantity: below 1000 m the rounded metre count, otherwise
      the kilometre value rounded to two decimals. */
  function Displayed(meters: real): (d: Shown)
    ensures d.Metres? <==> meters < 1000.0
    ensures d.Metres? ==> meters - 0.5 < d.metres as real <= meters + 0.5
    ensures d.Kilometres? ==> meters - 5.0 < 10.0 * d.hundredths as real <= meters + 5.0
    ensures d.Kilometres? ==> d.hundredths >= 100
  {
    if meters < 1000.0 then Metres(RoundHalfUp(meters))
    else Kilometres(RoundHalfUp(meters / 10.0))
  }

  /** The text of a displayed quantity: "<n>m" or "<k>.<dd>km". */
  function Render(d: Shown): string {
    match d
    case Metres(n) => IntToString(n) + "m"
    case Kilometres(h) => NatToString(h / 100) + "." + [DigitChar(h % 100 / 10), DigitChar(h % 10)] + "km"
  }

  /** Reads back a rendered distance: "<k>.<dd>km" or "<n>m", with the
      numerals written as `NatToString` and `IntToString` write them (no
      sign but '-', no leading zero, no "-0"). */
  function ParseShown(s: string): Option<Shown> {
    if |s| >= 6 && s[|s| - 2..] == "km" && s[|s| - 5] == '.' then
      var whole := s[..|s| - 5];
      var d1 := s[|s| - 4];
      var d0 := s[|s| - 3];
      if CanonicalDigits(whole) && IsDigit(d1) && IsDigit(d0) then
        Some(Kilometres(DigitsValue(whole) * 100 + DigitValue(d1) * 10 + DigitValue(d0)))
      else None
    else if |s| >= 2 && s[|s| - 1] == 'm' then
      var t := s[..|s| - 1];
      if CanonicalDigits(t) then Some(Metres(DigitsValue(t)))
      else if |t| >= 2 && t[0] == '-' && t[1] != '0' && CanonicalDigits(t[1..]) then
        Some(Metres(0 - DigitsValue(t[1..])))
      else None
    else None
  }

  lemma ParseRender(d: Shown)
    ensures ParseShown(Render(d)) == Some(d)
  {
    match d
    case Metres(n) => ParseRenderMetres(n);
    case Kilometres(h) => ParseRenderKilometres(h);
  }

  lemma ParseRenderMetres(n: int)
    ensures ParseShown(Render(Metres(n))) == Some(Metres(n))
  {
    var s := Render(Metres(n));
    var t := IntToString(n);
    assert s[..|s| - 1] == t && s[|s| - 2] == t[|t| - 1];
    if n >= 0 {
      ParseNatToString(n);
      assert IsDigit(t[|t| - 1]);
    } else {
      var u := NatToString(-n);
      ParseNatToString(-n);
      assert t[1..] == u && t[1] == u[0];
      assert IsDigit(t[|t| - 1]) && !CanonicalDigits(t);
    }
  }

  lemma ParseRenderKilometres(h: nat)
    ensures ParseShown(Render(Kilometres(h))) == Some(Kilometres(h))
  {
    var w := NatToString(h / 100);
    var s := Render(Kilometres(h));
    assert s == w + "." + [DigitChar(h % 100 / 10), DigitChar(h % 10)] + "km";
    ParseNatToString(h / 100);
    assert s[..|s| - 5] == w;
    assert s[|s| - 5] == '.' && s[|s| - 2..] == "km";
    assert s[|s| - 4] == DigitChar(h % 100 / 10) && s[|s| - 3] == DigitChar(h % 10);
    assert h / 100 * 100 + h % 100 / 10 * 10 + h % 10 == h;
  }

  /** The only text that reads as a quantity is that quantity's rendering. */
  lemma RenderOfParse(s: string)
    ensures ParseShown(s).Some? ==> s == Render(ParseShown(s).value)
  {
    if |s| >= 6 && s[|s| - 2..] == "km" && s[|s| - 5] == '.' {
      if ParseShown(s).Some? {
        RenderOfParseKilometres(s);
      }
    } else if ParseShown(s).Some? {
      RenderOfParseMetres(s);
    }
  }

  lemma RenderOfParseKilometres(s: string)
    requires |s| >= 6 && s[|s| - 2..] == "km" && s[|s| - 5] == '.'
    requires CanonicalDigits(s[..|s| - 5]) && IsDigit(s[|s| - 4]) && IsDigit(s[|s| - 3])
    ensures ParseShown(s).Some? && s == Render(ParseShown(s).value)
  {
    var w := s[..|s| - 5];
    var a, b := DigitValue(s[|s| - 4]), DigitValue(s[|s| - 3]);
    var h := DigitsValue(w) * 100 + a * 10 + b;
    assert ParseShown(s) == Some(Kilometres(h));
    CanonicalRoundTrip(w);
    HundredthsDigits(DigitsValue(w), a, b);
    assert DigitChar(a) == s[|s| - 4] && DigitChar(b) == s[|s| - 3];
    assert s == w + "." + [s[|s| - 4], s[|s| - 3]] + "km";
  }

  /** The whole part and the two decimals of `100q + 10a + b`. */
  lemma HundredthsDigits(q: nat, a: nat, b: nat)
    requires a < 10 && b < 10
    ensures var h := q * 100 + a * 10 + b;
      h / 100 == q && h % 100 / 10 == a && h % 10 == b
  {
    DivBy(q, a * 10 + b, 100);
    DivBy(a, b, 10);
    DivBy(q * 10 + a, b, 10);
    assert q * 100 + a * 10 + b == (q * 10 + a) * 10 + b;
  }

  /** Division by a positive constant `d` recovers quotient and remainder. */
  lemma DivBy(q: nat, r: nat, d: nat)
    requires d == 10 || d == 100
    requires r < d
    ensures (q * d + r) / d == q && (q * d + r) % d == r
  {
    var x := q * d + r;
    var xq, xr := x / d, x % d;
    assert x == xq * d + xr && 0 <= xr < d;
    if d == 10 {
      assert (q - xq) * 10 == xr - r;
    } else {
      assert (q - xq) * 100 == xr - r;
    }
  }

  lemma RenderOfParseMetres(s: string)
    requires !(|s| >= 6 && s[|s| - 2..] == "km" && s[|s| - 5] == '.')
    requires ParseShown(s).Some?
    ensures s == Render(ParseShown(s).value)
  {
    var t := s[..|s| - 1];
    assert s == t + "m";
    if CanonicalDigits(t) {
      CanonicalRoundTrip(t);
    } else {
      var u := t[1..];
      CanonicalRoundTrip(u);
      DigitsValuePositive(u);
      assert t == "-" + u;
    }
  }

  /** `formatDistance`: the text of `Displayed(meters)`, and the only text
      that reads as it. */
  function FormatDistance(meters: real): (s: string)
    ensures ParseShown(s) == Some(Displayed(meters))
    ensures forall t :: ParseShown(t) == Some(Displayed(meters)) ==> t == s
    ensures meters < 1000.0 ==> s[|s| - 1] == 'm' && s[|s| - 2] != 'k'
  {
    ParseRender(Displayed(meters));
    ParseCanonical();
    Render(Displayed(meters))
  }

  /** Reading is injective: two texts that read as the same quantity are
      equal. */
  lemma ParseCanonical()
    ensures forall s, d :: ParseShown(s) == Some(d) ==> s == Render(d)
  {
    forall s, d | ParseShown(s) == Some(d) ensures s == Render(d) {
      RenderOfParse(s);
    }
  }
}
