/** The client-side input validators: e-mail shape, ten-digit phone numbers, coordinate ranges. */
module Validate {
  import opened Wrappers
  import JsNumber
  import JsString

  /** A character `[^\s@]` admits: neither white space nor `@`. */
  predicate IsFieldChar(c: char) {
    !JsNumber.IsWhitespace(c) && c != '@'
  }

  /** A non-empty run of field characters, `[^\s@]+`. */
  predicate IsField(t: string) {
    |t| > 0 && forall k | 0 <= k < |t| :: IsFieldChar(t[k])
  }

  /**
   The strings `^[^\s@]+@[^\s@]+\.[^\s@]+$` matches: a local part, `@`, a
   domain part, `.`, and a last part, each a non-empty field.
   */
  ghost predicate EmailShape(s: string) {
    exists i, j | 0 < i < j < |s| :: s[i] == '@' && s[j] == '.'
      && IsField(s[..i]) && IsField(s[i + 1..j]) && IsField(s[j + 1..])
  }

  predicate NoWhitespace(s: string) {
    forall k | 0 <= k < |s| :: !JsNumber.IsWhitespace(s[k])
  }

  /** With the first `@` at `i`: it is not first, no later `@`, and a `.` with a character on either side follows. */
  predicate SplitsAt(s: string, i: nat) {
    && 0 < i < |s|
    && (forall k | i < k < |s| :: s[k] != '@')
    && (exists j | i + 1 < j < |s| - 1 :: s[j] == '.')
  }

  /**
   `validateEmail`: no white space anywhere, exactly one `@` and it is not
   first, and a `.` after it with at least one character on either side.
   */
  function ValidateEmail(s: string): (ok: bool)
    ensures ok <==> EmailShape(s)
  {
    var at := JsString.IndexOf(s, "@");
    var r := NoWhitespace(s) && at.Some? && SplitsAt(s, at.value);
    assert r <==> EmailShape(s) by {
      if r {
        CheckGivesShape(s, at.value);
      }
      if EmailShape(s) {
        ShapeGivesCheck(s);
      }
    }
    r
  }

  /** Position of the first `@`, as `indexOf` finds it. */
  lemma FirstAt(s: string, i: nat)
    requires i < |s| && s[i] == '@'
    requires forall k | 0 <= k < i :: s[k] != '@'
    ensures JsString.IndexOf(s, "@") == Some(i)
  {
    assert JsString.OccursAt(s, "@", i) by {
      assert s[i..i + 1] == [s[i]];
    }
    forall k | 0 <= k < i
      ensures !JsString.OccursAt(s, "@", k)
    {
      assert s[k..k + 1] == [s[k]];
    }
  }

  /** No `@` before the first one that `indexOf` reports. */
  lemma BeforeFirstAt(s: string, i: nat)
    requires JsString.IndexOf(s, "@") == Some(i)
    ensures i < |s| && s[i] == '@'
    ensures forall k | 0 <= k < i :: s[k] != '@'
  {
    assert s[i..i + 1] == "@";
    forall k | 0 <= k < i
      ensures s[k] != '@'
    {
      assert !JsString.OccursAt(s, "@", k);
      assert s[k..k + 1] == [s[k]];
    }
  }

  lemma ShapeGivesCheck(s: string)
    requires EmailShape(s)
    ensures NoWhitespace(s)
    ensures var at := JsString.IndexOf(s, "@"); at.Some? && SplitsAt(s, at.value)
  {
    var i, j :| 0 < i < j < |s| && s[i] == '@' && s[j] == '.'
      && IsField(s[..i]) && IsField(s[i + 1..j]) && IsField(s[j + 1..]);
    forall k | 0 <= k < i
      ensures IsFieldChar(s[k])
    {
      assert s[..i][k] == s[k];
    }
    forall k | i < k < |s| && k != j
      ensures IsFieldChar(s[k])
    {
      if k < j {
        assert s[i + 1..j][k - i - 1] == s[k];
      } else {
        assert s[j + 1..][k - j - 1] == s[k];
      }
    }
    FirstAt(s, i);
    assert |s[j + 1..]| > 0;
  }

  lemma CheckGivesShape(s: string, i: nat)
    requires NoWhitespace(s) && JsString.IndexOf(s, "@") == Some(i) && SplitsAt(s, i)
    ensures EmailShape(s)
  {
    BeforeFirstAt(s, i);
    var j :| i + 1 < j < |s| - 1 && s[j] == '.';
    assert IsField(s[..i]);
    assert IsField(s[i + 1..j]);
    assert IsField(s[j + 1..]);
  }

  /** `validatePhone`: `^[0-9]{10}$`, exactly ten ASCII digits and nothing else. */
  function ValidatePhone(s: string): (ok: bool)
    ensures ok <==> |s| == 10 && forall k | 0 <= k < |s| :: '0' <= s[k] <= '9'
  {
    |s| == 10 && JsNumber.AllDigits(s)
  }

  /** The decimal rendering of a number is a valid phone number iff the number has exactly ten digits. */
  lemma PhoneOfNumber(n: nat)
    ensures ValidatePhone(JsNumber.NatToString(n)) <==> JsNumber.Pow10(9) <= n < JsNumber.Pow10(10)
  {
    JsNumber.NatToStringLength(n, 10);
    JsNumber.NatToStringLength(n, 9);
  }

  /** A JavaScript number: a finite value, `NaN`, or an infinity. */
  datatype Number = Finite(value: real) | NaN | Infinity(negative: bool)

  /** `x >= c` for a finite constant `c`, with JavaScript's comparison semantics. */
  predicate AtLeast(x: Number, c: real) {
    match x
    case Finite(v) => v >= c
    case NaN => false
    case Infinity(negative) => !negative
  }

  /** `x <= c` for a finite constant `c`, with JavaScript's comparison semantics. */
  predicate AtMost(x: Number, c: real) {
    match x
    case Finite(v) => v <= c
    case NaN => false
    case Infinity(negative) => negative
  }

  /** `validateCoordinates(lat, lng)`: both are numbers in the closed latitude and longitude ranges. */
  function ValidateCoordinates(lat: Number, lng: Number): (ok: bool)
    ensures ok <==> (lat.Finite? && lng.Finite?
      && -90.0 <= lat.value <= 90.0 && -180.0 <= lng.value <= 180.0)
  {
    !lat.NaN? && !lng.NaN?
    && AtLeast(lat, -90.0) && AtMost(lat, 90.0)
    && AtLeast(lng, -180.0) && AtMost(lng, 180.0)
  }

  /** The `isNaN` guards are redundant: every comparison with `NaN` is already false. */
  lemma NaNGuardsRedundant(lat: Number, lng: Number)
    ensures ValidateCoordinates(lat, lng) <==>
      AtLeast(lat, -90.0) && AtMost(lat, 90.0) && AtLeast(lng, -180.0) && AtMost(lng, 180.0)
  {
  }
}
