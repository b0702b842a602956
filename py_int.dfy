/**
 * Python's `int(payload.decode('utf-8'))` on a heartbeat payload, for
 * payloads that are pure ASCII: surrounding whitespace is stripped, one
 * optional sign is allowed, and the digits may be grouped by single
 * underscores. Anything else raises `ValueError`, written here as `None`.
 */
module PyInt {
  import opened Wrappers
  import opened BigEndian

  /** Default limit on the number of digits `int()` converts. */
  const MAX_STR_DIGITS: nat := 4300

  const PLUS: Byte := 0x2B
  const MINUS: Byte := 0x2D
  const ZERO: Byte := 0x30
  const UNDERSCORE: Byte := 0x5F

  /**
   * The whitespace `int()` skips around the number in ASCII text: the C
   * locale's `\t\n\v\f\r` and space. The separators 0x1C-0x1F, which
   * `str.isspace()` accepts, are not skipped.
   */
  predicate IsSpace(b: Byte)
  {
    (0x09 <= b <= 0x0D) || b == 0x20
  }

  predicate IsDigit(b: Byte)
  {
    ZERO <= b <= 0x39
  }

  predicate IsAscii(s: seq<Byte>)
  {
    forall i :: 0 <= i < |s| ==> s[i] < 0x80
  }

  predicate AllSpaces(s: seq<Byte>)
  {
    forall i :: 0 <= i < |s| ==> IsSpace(s[i])
  }

  predicate AllDigits(s: seq<Byte>)
  {
    forall i :: 0 <= i < |s| ==> IsDigit(s[i])
  }

  /** How many whitespace bytes `s` starts with. */
  function LeadingSpaces(s: seq<Byte>): (k: nat)
    ensures k <= |s|
    ensures forall i :: 0 <= i < k ==> IsSpace(s[i])
    ensures k < |s| ==> !IsSpace(s[k])
  {
    if s == [] || !IsSpace(s[0]) then 0
    else
      var k := LeadingSpaces(s[1..]);
      assert forall i :: 0 < i <= k ==> s[i] == s[1..][i - 1];
      k + 1
  }

  /** How many whitespace bytes `s` ends with. */
  function TrailingSpaces(s: seq<Byte>): (k: nat)
    ensures k <= |s|
    ensures forall i :: |s| - k <= i < |s| ==> IsSpace(s[i])
    ensures k < |s| ==> !IsSpace(s[|s| - k - 1])
  {
    if s == [] || !IsSpace(s[|s| - 1]) then 0
    else
      var p := s[..|s| - 1];
      var k := TrailingSpaces(p);
      assert forall i :: |p| - k <= i < |p| ==> s[i] == p[i];
      k + 1
  }

  /** `s` without its leading whitespace. */
  function TrimStart(s: seq<Byte>): seq<Byte>
  {
    s[LeadingSpaces(s)..]
  }

  /** `s` without its trailing whitespace. */
  function TrimEnd(s: seq<Byte>): seq<Byte>
  {
    s[..|s| - TrailingSpaces(s)]
  }

  /** `s` without the whitespace `int()` skips on either side. */
  function Strip(s: seq<Byte>): seq<Byte>
  {
    TrimEnd(TrimStart(s))
  }

  /**
   * A digit run as base 10 accepts it: it starts and ends with a digit,
   * holds only digits and underscores, and no two underscores touch.
   */
  predicate WellGrouped(s: seq<Byte>)
  {
    && |s| > 0
    && IsDigit(s[0])
    && IsDigit(s[|s| - 1])
    && (forall i :: 0 <= i < |s| ==> IsDigit(s[i]) || s[i] == UNDERSCORE)
    && (forall i, j :: 0 <= i < j < |s| && s[i] == UNDERSCORE && s[j] == UNDERSCORE ==> i + 1 < j)
  }

  /** How many digits `s` holds; underscores do not count. */
  function DigitCount(s: seq<Byte>): (r: nat)
    ensures r <= |s|
  {
    if s == [] then 0
    else DigitCount(s[..|s| - 1]) + (if IsDigit(s[|s| - 1]) then 1 else 0)
  }

  /** The value of a digit run read in base 10, skipping underscores. */
  function Value(s: seq<Byte>): nat
  {
    if s == [] then 0
    else
      var last := s[|s| - 1];
      if IsDigit(last) then Value(s[..|s| - 1]) * 10 + (last - ZERO)
      else Value(s[..|s| - 1])
  }

  /** `int()` on text already stripped: one optional sign, then a well-grouped digit run. */
  function ParseStripped(t: seq<Byte>): (r: Option<int>)
    ensures r.Some? ==> |t| > 0 && IsDigit(t[|t| - 1])
  {
    if t == [] then None
    else
      var body := if t[0] == PLUS || t[0] == MINUS then t[1..] else t;
      if !WellGrouped(body) || DigitCount(body) > MAX_STR_DIGITS then None
      else Some(if t[0] == MINUS then -(Value(body) as int) else Value(body))
  }

  /**
   * `int(s.decode('utf-8'))`, or `None` where it raises. A payload with a
   * byte above 0x7F is rejected outright (see README).
   */
  function ParseInt(s: seq<Byte>): (r: Option<int>)
    ensures r.Some? ==> IsAscii(s)
    ensures AllSpaces(s) ==> r.None?
    ensures r.Some? ==> exists i :: 0 <= i < |s| && IsDigit(s[i])
  {
    if !IsAscii(s) then None
    else
      var u := TrimStart(s);
      var t := TrimEnd(u);
      if t == [] then None
      else
        var r := ParseStripped(t);
        assert r.Some? ==> IsDigit(s[LeadingSpaces(s) + |t| - 1]) by {
          assert u[|t| - 1] == t[|t| - 1];
        }
        r
  }

  /** The shortest base-10 text of `n`, as `str(n)` writes it. */
  function DecimalText(n: nat): (r: seq<Byte>)
    ensures |r| > 0 && AllDigits(r)
  {
    if n < 10 then [ZERO + n]
    else DecimalText(n / 10) + [ZERO + n % 10]
  }

  lemma {:induction false} DecimalValue(n: nat)
    ensures Value(DecimalText(n)) == n
    ensures DigitCount(DecimalText(n)) == |DecimalText(n)|
  {
    var r := DecimalText(n);
    if n < 10 {
      assert r[..0] == [];
    } else {
      DecimalValue(n / 10);
      assert r[..|r| - 1] == DecimalText(n / 10);
    }
  }

  lemma TrimStartPadded(lead: seq<Byte>, x: seq<Byte>)
    requires AllSpaces(lead)
    requires x == [] || !IsSpace(x[0])
    ensures TrimStart(lead + x) == x
  {
    var s := lead + x;
    assert forall i :: 0 <= i < |lead| ==> s[i] == lead[i];
    assert |lead| < |s| ==> s[|lead|] == x[0];
    assert LeadingSpaces(s) == |lead|;
    assert s[|lead|..] == x;
  }

  lemma TrimEndPadded(x: seq<Byte>, trail: seq<Byte>)
    requires AllSpaces(trail)
    requires x == [] || !IsSpace(x[|x| - 1])
    ensures TrimEnd(x + trail) == x
  {
    var s := x + trail;
    assert forall i :: |x| <= i < |s| ==> s[i] == trail[i - |x|];
    assert |trail| < |s| ==> s[|s| - |trail| - 1] == x[|x| - 1];
    assert TrailingSpaces(s) == |trail|;
    assert s[..|x|] == x;
  }

  /** Padding, sign and digits are all ASCII. */
  lemma PaddedAscii(lead: seq<Byte>, x: seq<Byte>, trail: seq<Byte>)
    requires AllSpaces(lead) && AllSpaces(trail) && IsAscii(x)
    ensures IsAscii(lead + x + trail)
  {
    var s := lead + x + trail;
    forall i | 0 <= i < |s|
      ensures s[i] < 0x80
    {
      if i < |lead| {
        assert s[i] == lead[i];
      } else if i < |lead| + |x| {
        assert s[i] == x[i - |lead|];
      } else {
        assert s[i] == trail[i - |lead| - |x|];
      }
    }
  }

  /** Stripping removes exactly the padding around text that starts and ends with no whitespace. */
  lemma StripPadded(lead: seq<Byte>, x: seq<Byte>, trail: seq<Byte>)
    requires AllSpaces(lead) && AllSpaces(trail)
    requires |x| > 0 && !IsSpace(x[0]) && !IsSpace(x[|x| - 1])
    ensures Strip(lead + x + trail) == x
  {
    assert lead + x + trail == lead + (x + trail);
    TrimStartPadded(lead, x + trail);
    TrimEndPadded(x, trail);
  }

  lemma DigitsWellGrouped(d: seq<Byte>)
    requires |d| > 0 && AllDigits(d)
    ensures WellGrouped(d)
  {
  }

  /** Plain digits parse to their value. */
  lemma ParseUnsigned(digits: seq<Byte>)
    requires |digits| > 0 && AllDigits(digits) && DigitCount(digits) <= MAX_STR_DIGITS
    ensures ParseStripped(digits) == Some(Value(digits) as int)
  {
    DigitsWellGrouped(digits);
  }

  /** A minus sign before plain digits negates their value. */
  lemma ParseNegative(digits: seq<Byte>)
    requires |digits| > 0 && AllDigits(digits) && DigitCount(digits) <= MAX_STR_DIGITS
    ensures ParseStripped([MINUS] + digits) == Some(-(Value(digits) as int))
  {
    var t := [MINUS] + digits;
    assert t[0] == MINUS;
    assert t[1..] == digits;
    DigitsWellGrouped(digits);
  }

  /**
   * Round trip with `str`: the decimal text of `n`, padded with whitespace
   * on either side, parses back to `n`.
   */
  lemma ParsesDecimal(lead: seq<Byte>, n: nat, trail: seq<Byte>)
    requires AllSpaces(lead) && AllSpaces(trail)
    requires |DecimalText(n)| <= MAX_STR_DIGITS
    ensures ParseInt(lead + DecimalText(n) + trail) == Some(n)
  {
    DecimalValue(n);
    ParsesDigits(lead, DecimalText(n), trail);
  }

  /** Plain digits padded with whitespace parse to their value. */
  lemma ParsesDigits(lead: seq<Byte>, digits: seq<Byte>, trail: seq<Byte>)
    requires AllSpaces(lead) && AllSpaces(trail)
    requires |digits| > 0 && AllDigits(digits) && DigitCount(digits) <= MAX_STR_DIGITS
    ensures ParseInt(lead + digits + trail) == Some(Value(digits) as int)
  {
    UnsignedPadded(lead, digits, trail);
    ParseUnsigned(digits);
  }

  /** A minus sign between the padding and the digits negates the value. */
  lemma ParsesNegativeDigits(lead: seq<Byte>, digits: seq<Byte>, trail: seq<Byte>)
    requires AllSpaces(lead) && AllSpaces(trail)
    requires |digits| > 0 && AllDigits(digits) && DigitCount(digits) <= MAX_STR_DIGITS
    ensures ParseInt(lead + [MINUS] + digits + trail) == Some(-(Value(digits) as int))
  {
    NegativePadded(lead, digits, trail);
    ParseNegative(digits);
  }

  /** Whitespace around a digit run does not change what it parses to. */
  lemma UnsignedPadded(lead: seq<Byte>, digits: seq<Byte>, trail: seq<Byte>)
    requires AllSpaces(lead) && AllSpaces(trail)
    requires |digits| > 0 && AllDigits(digits)
    ensures ParseInt(lead + digits + trail) == ParseStripped(digits)
  {
    SignedDigitsAscii(false, digits);
    assert [] + digits == digits;
    PaddedAscii(lead, digits, trail);
    StripPadded(lead, digits, trail);
    ParseOfStrip(lead + digits + trail);
  }

  /** The same with a minus sign in front of the digits. */
  lemma NegativePadded(lead: seq<Byte>, digits: seq<Byte>, trail: seq<Byte>)
    requires AllSpaces(lead) && AllSpaces(trail)
    requires |digits| > 0 && AllDigits(digits)
    ensures ParseInt(lead + [MINUS] + digits + trail) == ParseStripped([MINUS] + digits)
  {
    var x := [MINUS] + digits;
    SignedDigitsAscii(true, digits);
    PaddedAscii(lead, x, trail);
    StripPadded(lead, x, trail);
    assert lead + [MINUS] + digits + trail == lead + x + trail;
    ParseOfStrip(lead + x + trail);
  }

  lemma SignedDigitsAscii(negative: bool, digits: seq<Byte>)
    requires |digits| > 0 && AllDigits(digits)
    ensures var x := (if negative then [MINUS] else []) + digits;
      IsAscii(x) && !IsSpace(x[0]) && !IsSpace(x[|x| - 1])
  {
    var x := (if negative then [MINUS] else []) + digits;
    assert x[|x| - 1] == digits[|digits| - 1];
    assert forall i :: 0 <= i < |x| ==> x[i] == MINUS || IsDigit(x[i]);
  }

  /** On ASCII text with something besides whitespace, `int()` is the parse of the stripped text. */
  lemma ParseOfStrip(s: seq<Byte>)
    requires IsAscii(s) && Strip(s) != []
    ensures ParseInt(s) == ParseStripped(Strip(s))
  {
  }

  /** Underscores between digits do not change the value. */
  lemma {:induction false} UnderscoreIgnored(a: seq<Byte>, b: seq<Byte>)
    ensures Value(a + [UNDERSCORE] + b) == Value(a + b)
  {
    var s, t := a + [UNDERSCORE] + b, a + b;
    if b == [] {
      assert s[..|s| - 1] == a;
      assert t == a;
    } else {
      var b' := b[..|b| - 1];
      assert s[..|s| - 1] == a + [UNDERSCORE] + b';
      assert t[..|t| - 1] == a + b';
      assert s[|s| - 1] == t[|t| - 1] == b[|b| - 1];
      UnderscoreIgnored(a, b');
    }
  }

  /** Two underscores in a row make the text invalid, wherever they sit. */
  lemma RejectsDoubledUnderscore(t: seq<Byte>, i: nat)
    requires i + 1 < |t| && t[i] == UNDERSCORE && t[i + 1] == UNDERSCORE
    ensures ParseStripped(t).None?
  {
    if t[0] == PLUS || t[0] == MINUS {
      var body := t[1..];
      assert body[i - 1] == UNDERSCORE && body[i] == UNDERSCORE;
    } else {
      assert t[i] == UNDERSCORE && t[i + 1] == UNDERSCORE;
    }
  }

  /** A separator byte 0x1C-0x1F before the digits is not skipped: `int()` rejects the text. */
  lemma SeparatorNotSkipped(b: Byte, digits: seq<Byte>)
    requires 0x1C <= b <= 0x1F
    requires |digits| > 0 && AllDigits(digits)
    ensures ParseInt([b] + digits) == None
  {
    var s := [b] + digits;
    assert LeadingSpaces(s) == 0;
    assert TrimStart(s) == s;
    assert TrailingSpaces(s) == 0;
    assert Strip(s) == s;
    assert !WellGrouped(s);
  }

  /** Heartbeats carry the port as plain decimal text. */
  lemma PortText(port: nat)
    requires port < 0x1_0000
    ensures ParseInt(DecimalText(port)) == Some(port)
  {
    assert Pow10(5) == 100000;
    DecimalDigits(port, 5);
    ParsesDecimal([], port, []);
    assert [] + DecimalText(port) + [] == DecimalText(port);
  }

  /** A number below `10^k` needs at most `k` digits. */
  lemma {:induction false} DecimalDigits(n: nat, k: nat)
    requires 1 <= k && n < Pow10(k)
    ensures |DecimalText(n)| <= k
  {
    if n >= 10 {
      var p := Pow10(k - 1);
      assert k >= 2 && n < 10 * p;
      DecimalDigits(n / 10, k - 1);
    }
  }

  function Pow10(k: nat): (r: nat)
    ensures r >= 1
  {
    if k == 0 then 1 else 10 * Pow10(k - 1)
  }
}
