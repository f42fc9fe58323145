/// Values that the host engine supplies to every part of the model: entity
/// handles, colours, text styles, text sections, and the decimal rendering of
/// unsigned integers (`to_string`).
module Host {

  datatype Option<+T> = None | Some(value: T) {
    function GetOr(default: T): T {
      match this
      case Some(v) => v
      case None => default
    }
  }

  /// A handle of an entity of the host scene graph.
  type Entity = nat

  /// An sRGB colour; the modelled code always uses full opacity.
  datatype Color = Srgb(r: real, g: real, b: real)

  const White: Color := Srgb(1.0, 1.0, 1.0)

  /// A font asset handle; 0 is the default font.
  type FontHandle = nat

  /// The text style of one section: font, font size and colour.
  datatype Style = Style(font: FontHandle, fontSize: real, color: Color)

  /// The host's default text style (default font, size 24, white).
  const DefaultStyle: Style := Style(0, 24.0, White)

  /// One styled run of text: a `TextSection`.
  datatype Section = Section(value: string, style: Style)

  predicate IsDigit(c: char) {
    '0' <= c <= '9'
  }

  predicate IsDigits(s: string) {
    forall i :: 0 <= i < |s| ==> IsDigit(s[i])
  }

  function DigitChar(d: nat): (c: char)
    requires d < 10
    ensures IsDigit(c)
  {
    (48 + d) as char
  }

  /// The decimal text of `n`, as Rust's `to_string` renders an unsigned integer.
  function Decimal(n: nat): (s: string)
    ensures |s| >= 1 && IsDigits(s)
    ensures |s| > 1 ==> s[0] != '0'
  {
    if n < 10 then [DigitChar(n)] else Decimal(n / 10) + [DigitChar(n % 10)]
  }

  /// The number a string of decimal digits denotes.
  function DecimalValue(s: string): nat
    requires IsDigits(s)
  {
    if s == [] then 0
    else DecimalValue(s[..|s| - 1]) * 10 + (s[|s| - 1] as int - 48)
  }

  /// Reading back the decimal text of a number gives the number.
  lemma {:induction false} DecimalRoundTrip(n: nat)
    ensures DecimalValue(Decimal(n)) == n
  {
    var s := Decimal(n);
    if n >= 10 {
      DecimalRoundTrip(n / 10);
      assert s[..|s| - 1] == Decimal(n / 10);
    }
  }

  /// Different numbers have different decimal texts.
  lemma DecimalInjective(m: nat, n: nat)
    requires Decimal(m) == Decimal(n)
    ensures m == n
  {
    DecimalRoundTrip(m);
    DecimalRoundTrip(n);
  }
}
