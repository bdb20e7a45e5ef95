// Reading and printing decimals: the scanner accepts exactly a small grammar, and what
// the printer writes reads back as the normal form.

module DecimalText {
  import opened Decimals
  import opened Options

  predicate IsSpace(c: char) { c == ' ' || '\t' <= c <= '\r' }

  predicate IsDigit(c: char) { '0' <= c <= '9' }

  function DigitOf(c: char): nat
    requires IsDigit(c)
  {
    c as int - '0' as int
  }

  function Digit(n: nat): (c: char)
    requires n < 10
    ensures IsDigit(c) && DigitOf(c) == n
  {
    ('0' as int + n) as char
  }

  predicate AllSpace(s: string) { forall i :: 0 <= i < |s| ==> IsSpace(s[i]) }

  predicate AllDigits(s: string) { forall i :: 0 <= i < |s| ==> IsDigit(s[i]) }

  /** The number these digits spell after the digits of acc. */
  function Horner(acc: nat, s: string): nat
    requires AllDigits(s)
    decreases |s|
  {
    if s == [] then acc else Horner(10 * acc + DigitOf(s[0]), s[1..])
  }

  // ----- the grammar -----

  /** Optional space, an optional sign, digits with at most one dot among them, optional space. */
  datatype Parts = Parts(lead: string, sign: string, whole: string, dot: string, fraction: string, trail: string)
  {
    ghost predicate Valid() {
      && AllSpace(lead) && AllSpace(trail)
      && (sign == "" || sign == "+" || sign == "-")
      && AllDigits(whole) && AllDigits(fraction) && |whole| + |fraction| > 0
      && (dot == "." || (dot == "" && fraction == ""))
    }

    ghost function Text(): string { lead + (sign + (whole + (dot + (fraction + trail)))) }

    ghost function Magnitude(): nat
      requires Valid()
    {
      Horner(Horner(0, whole), fraction)
    }

    /** The digits fit 64 bits, and the fraction digits can be counted. */
    ghost predicate Fits()
      requires Valid()
    {
      Magnitude() <= Limit(sign == "-") && |fraction| <= INT32_MAX
    }

    ghost function Number(): Decimal
      requires Valid()
    {
      Decimal(if sign == "-" then -(Magnitude() as int) else Magnitude(), |fraction|)
    }
  }

  function Limit(negative: bool): nat { if negative then INT64_MAX + 1 else INT64_MAX }

  // ----- the scanner -----

  /** The digits read so far: their value, how many follow the dot, and whether a digit and a dot were seen. */
  datatype Seen = Seen(acc: nat, scale: nat, digit: bool, dot: bool)

  function Scan(s: string, limit: nat, seen: Seen): Option<Seen>
    decreases |s|
  {
    if s == [] then (if seen.digit then Some(seen) else None)
    else if IsDigit(s[0]) then
      var d := DigitOf(s[0]);
      if 10 * seen.acc + d > limit || (seen.dot && seen.scale == INT32_MAX) then None
      else Scan(s[1..], limit, Seen(10 * seen.acc + d, if seen.dot then seen.scale + 1 else seen.scale, true, seen.dot))
    else if s[0] == '.' then
      if seen.dot then None else Scan(s[1..], limit, seen.(dot := true))
    else if AllSpace(s) && seen.digit then Some(seen)
    else None
  }

  function SkipSpace(s: string): string {
    if s != [] && IsSpace(s[0]) then SkipSpace(s[1..]) else s
  }

  /** What a text denotes, in normal form. */
  function Read(text: string): Option<Decimal> {
    var s := SkipSpace(text);
    var negative := s != [] && s[0] == '-';
    var body := if s != [] && (s[0] == '-' || s[0] == '+') then s[1..] else s;
    match Scan(body, Limit(negative), Seen(0, 0, false, false))
    case None => None
    case Some(seen) => Some(Strip(Decimal(if negative then -(seen.acc as int) else seen.acc, seen.scale)))
  }

  lemma {:induction false} HornerGrows(acc: nat, s: string)
    requires AllDigits(s)
    ensures Horner(acc, s) >= acc
    decreases |s|
  {
    if s != [] {
      HornerGrows(10 * acc + DigitOf(s[0]), s[1..]);
    }
  }

  /** A run of digits before the rest of the text. */
  lemma {:induction false} ScanDigits(s: string, rest: string, limit: nat, seen: Seen)
    requires AllDigits(s) && seen.acc <= limit && seen.scale <= INT32_MAX
    ensures
      var scale := if seen.dot then seen.scale + |s| else seen.scale;
      Scan(s + rest, limit, seen) ==
      if Horner(seen.acc, s) > limit || scale > INT32_MAX then None
      else Scan(rest, limit, Seen(Horner(seen.acc, s), scale, seen.digit || s != [], seen.dot))
    decreases |s|
  {
    if s == [] {
      assert s + rest == rest;
    } else {
      var d := DigitOf(s[0]);
      assert (s + rest)[1..] == s[1..] + rest;
      HornerGrows(10 * seen.acc + d, s[1..]);
      if !(10 * seen.acc + d > limit || (seen.dot && seen.scale == INT32_MAX)) {
        ScanDigits(s[1..], rest, limit, Seen(10 * seen.acc + d, if seen.dot then seen.scale + 1 else seen.scale, true, seen.dot));
      }
    }
  }

  lemma ScanTrail(s: string, limit: nat, seen: Seen)
    requires AllSpace(s) && seen.digit
    ensures Scan(s, limit, seen) == Some(seen)
  {
  }

  /** The scanner on a text of the grammar. */
  lemma ScanParts(p: Parts, limit: nat)
    requires p.Valid()
    ensures Scan(p.whole + (p.dot + (p.fraction + p.trail)), limit, Seen(0, 0, false, false)) ==
      if p.Magnitude() <= limit && |p.fraction| <= INT32_MAX
      then Some(Seen(p.Magnitude(), |p.fraction|, true, p.dot == ".")) else None
  {
    hide Scan, Horner;
    var n := Horner(0, p.whole);
    var tail := p.fraction + p.trail;
    var seen := Seen(n, 0, p.whole != [], false);
    ScanDigits(p.whole, p.dot + tail, limit, Seen(0, 0, false, false));
    HornerGrows(n, p.fraction);
    if n <= limit {
      if p.dot == "." {
        ScanDot(tail, limit, seen);
        ScanDigits(p.fraction, p.trail, limit, seen.(dot := true));
        if p.Magnitude() <= limit && |p.fraction| <= INT32_MAX {
          ScanTrail(p.trail, limit, Seen(p.Magnitude(), |p.fraction|, true, true));
        }
      } else {
        assert p.dot + tail == p.trail;
        HornerEmpty(n);
        ScanTrail(p.trail, limit, seen);
      }
    }
  }

  lemma HornerEmpty(n: nat)
    ensures Horner(n, "") == n
  {
  }

  lemma ScanDot(tail: string, limit: nat, seen: Seen)
    requires !seen.dot
    ensures Scan("." + tail, limit, seen) == Scan(tail, limit, seen.(dot := true))
  {
    assert ("." + tail)[1..] == tail;
  }

  lemma {:induction false} SkipLead(lead: string, rest: string)
    requires AllSpace(lead) && (rest == [] || !IsSpace(rest[0]))
    ensures SkipSpace(lead + rest) == rest
    decreases |lead|
  {
    if lead == [] {
      assert lead + rest == rest;
    } else {
      assert (lead + rest)[1..] == lead[1..] + rest;
      SkipLead(lead[1..], rest);
    }
  }

  /** A text of the grammar reads as the number it spells, or not at all if that does not fit. */
  lemma ReadParts(p: Parts)
    requires p.Valid()
    ensures Read(p.Text()) == if p.Fits() then Some(Strip(p.Number())) else None
  {
    hide Scan, SkipSpace, Horner, Strip;
    var body := p.whole + (p.dot + (p.fraction + p.trail));
    FirstOfBody(p, body);
    SkipLead(p.lead, p.sign + body);
    ScanParts(p, Limit(p.sign == "-"));
    if p.sign == "" {
      assert p.sign + body == body;
    } else {
      assert (p.sign + body)[1..] == body;
    }
  }

  lemma FirstOfBody(p: Parts, body: string)
    requires p.Valid() && body == p.whole + (p.dot + (p.fraction + p.trail))
    ensures body != [] && (IsDigit(body[0]) || body[0] == '.')
  {
    if p.whole == [] {
      assert body[0] == p.dot[0];
    } else {
      assert body[0] == p.whole[0];
    }
  }

  /** Whatever the scanner accepts follows the grammar. */
  lemma {:induction false} ScanFollows(s: string, limit: nat, seen: Seen)
    returns (whole: string, dot: string, fraction: string, trail: string)
    requires Scan(s, limit, seen).Some?
    ensures s == whole + (dot + (fraction + trail)) && AllSpace(trail) && AllDigits(whole) && AllDigits(fraction)
    ensures if seen.dot then whole == "" && dot == "" else dot == "." || (dot == "" && fraction == "")
    ensures seen.digit || |whole| + |fraction| > 0
    decreases |s|
  {
    if s == [] || !(IsDigit(s[0]) || s[0] == '.') {
      return "", "", "", s;
    }
    var first := s[..1];
    assert s == first + s[1..];
    if IsDigit(s[0]) {
      var next := Seen(10 * seen.acc + DigitOf(s[0]), if seen.dot then seen.scale + 1 else seen.scale, true, seen.dot);
      whole, dot, fraction, trail := ScanFollows(s[1..], limit, next);
      if seen.dot {
        fraction := first + fraction;
      } else {
        whole := first + whole;
      }
    } else {
      whole, dot, fraction, trail := ScanFollows(s[1..], limit, seen.(dot := true));
      dot := ".";
    }
  }

  lemma {:induction false} SkipSplits(s: string) returns (k: nat)
    ensures k <= |s| && AllSpace(s[..k]) && SkipSpace(s) == s[k..]
    decreases |s|
  {
    k := 0;
    if s != [] && IsSpace(s[0]) {
      k := SkipSplits(s[1..]);
      assert s[..k + 1] == [s[0]] + s[1..][..k];
      k := k + 1;
    }
  }

  lemma ReadFollows(text: string) returns (p: Parts)
    requires Read(text).Some?
    ensures p.Valid() && p.Text() == text
  {
    hide Scan, SkipSpace, Strip;
    var k := SkipSplits(text);
    var lead := text[..k];
    var s := SkipSpace(text);
    var negative := s != [] && s[0] == '-';
    var signed := s != [] && (s[0] == '-' || s[0] == '+');
    var sign, body := if signed then s[..1] else "", if signed then s[1..] else s;
    var whole, dot, fraction, trail := ScanFollows(body, Limit(negative), Seen(0, 0, false, false));
    p := Parts(lead, sign, whole, dot, fraction, trail);
    assert s == sign + body;
  }

  /**
   * Reading succeeds on exactly the texts of the grammar whose digits fit 64 bits and whose fraction digits can be
   * counted, and the result is the number spelled, in normal form.
   */
  lemma ReadExact(text: string)
    ensures Read(text).Some? <==> exists p: Parts :: p.Valid() && p.Text() == text && p.Fits()
    ensures forall p: Parts :: p.Valid() && p.Text() == text && p.Fits() ==> Read(text) == Some(Strip(p.Number()))
  {
    hide Read, Strip;
    forall p: Parts | p.Valid() && p.Text() == text ensures Read(text) == if p.Fits() then Some(Strip(p.Number())) else None {
      ReadParts(p);
    }
    if Read(text).Some? {
      var p := ReadFollows(text);
      assert p.Fits();
    }
  }

  // ----- the parser -----

  lemma SkipOne(text: string, p: nat)
    requires p < |text|
    ensures SkipSpace(text[p..]) == if IsSpace(text[p]) then SkipSpace(text[p + 1..]) else text[p..]
  {
    assert text[p..][1..] == text[p + 1..];
  }

  /** The cursor stops at the first character that is not a space. */
  method PassSpace(text: string, start: nat) returns (p: nat)
    requires start <= |text|
    ensures start <= p <= |text| && text[p..] == SkipSpace(text[start..])
    ensures p == |text| <==> AllSpace(text[start..])
  {
    hide SkipSpace;
    p := start;
    while p < |text| && IsSpace(text[p])
      invariant start <= p <= |text| && SkipSpace(text[p..]) == SkipSpace(text[start..])
      invariant forall i :: start <= i < p ==> IsSpace(text[i])
    {
      SkipOne(text, p);
      p := p + 1;
    }
    if p < |text| {
      SkipOne(text, p);
      assert text[start..][p - start] == text[p];
    } else {
      SkipNone();
    }
  }

  lemma SkipNone()
    ensures SkipSpace("") == ""
  {
  }

  /** One character of a scan. */
  lemma ScanOne(text: string, p: nat, limit: nat, seen: Seen)
    requires p < |text|
    ensures IsDigit(text[p]) ==>
      var d := DigitOf(text[p]);
      Scan(text[p..], limit, seen) ==
      if 10 * seen.acc + d > limit || (seen.dot && seen.scale == INT32_MAX) then None
      else Scan(text[p + 1..], limit, Seen(10 * seen.acc + d, if seen.dot then seen.scale + 1 else seen.scale, true, seen.dot))
    ensures text[p] == '.' ==>
      Scan(text[p..], limit, seen) == if seen.dot then None else Scan(text[p + 1..], limit, seen.(dot := true))
    ensures !IsDigit(text[p]) && text[p] != '.' ==>
      Scan(text[p..], limit, seen) == if AllSpace(text[p..]) && seen.digit then Some(seen) else None
  {
    assert text[p..][0] == text[p] && text[p..][1..] == text[p + 1..];
  }

  lemma ScanNone(limit: nat, seen: Seen)
    ensures Scan("", limit, seen) == if seen.digit then Some(seen) else None
  {
  }

  /** The loop over the digits and the dot. */
  method ScanBody(text: string, start: nat, limit: nat) returns (ok: bool, acc: nat, scale: nat)
    requires start <= |text| && limit >= 9
    ensures var r := Scan(text[start..], limit, Seen(0, 0, false, false));
      (ok <==> r.Some?) && (ok ==> acc == r.value.acc <= limit && scale == r.value.scale <= INT32_MAX)
  {
    hide Scan;
    ghost var result := Scan(text[start..], limit, Seen(0, 0, false, false));
    var p, sawDigit, sawDot := start, false, false;
    acc, scale := 0, 0;
    while p < |text|
      invariant start <= p <= |text| && acc <= limit && scale <= INT32_MAX
      invariant result == Scan(text[p..], limit, Seen(acc, scale, sawDigit, sawDot))
    {
      ScanOne(text, p, limit, Seen(acc, scale, sawDigit, sawDot));
      if IsDigit(text[p]) {
        var digit := DigitOf(text[p]);
        if acc > (limit - digit) / 10 {
          return false, acc, scale;
        }
        acc := acc * 10 + digit;
        sawDigit := true;
        if sawDot {
          if scale == INT32_MAX {
            return false, acc, scale;
          }
          scale := scale + 1;
        }
        p := p + 1;
      } else if text[p] == '.' {
        if sawDot {
          return false, acc, scale;
        }
        sawDot := true;
        p := p + 1;
      } else {
        if IsSpace(text[p]) {
          p := PassSpace(text, p);
          if p == |text| {
            return sawDigit, acc, scale;
          }
        }
        return false, acc, scale;
      }
    }
    assert text[p..] == "";
    ScanNone(limit, Seen(acc, scale, sawDigit, sawDot));
    return sawDigit, acc, scale;
  }

  /** The parser of the runtime: one cursor over the text, 64-bit accumulation with an overflow check. */
  method FromText(text: string) returns (ok: bool, d: Decimal)
    ensures ok <==> Read(text).Some?
    ensures ok ==> d == Read(text).value && Representable(d) && d.scale >= 0
  {
    hide Scan, SkipSpace;
    assert text[0..] == text;
    var p := PassSpace(text, 0);
    var negative := p < |text| && text[p] == '-';
    ghost var s := text[p..];
    if p < |text| && (text[p] == '-' || text[p] == '+') {
      assert s[1..] == text[p + 1..];
      p := p + 1;
    }
    var acc, scale;
    ok, acc, scale := ScanBody(text, p, Limit(negative));
    if !ok {
      return false, Decimal(0, 0);
    }
    var read := Decimal(if negative then -(acc as int) else acc, scale);
    StripMeaning(read);
    StripShrinks(read);
    ok, d := Normalize(read);
  }

  lemma {:induction false} StripShrinks(d: Decimal)
    requires d.scale >= 0
    ensures d.mantissa >= 0 ==> 0 <= Strip(d).mantissa <= d.mantissa
    ensures d.mantissa < 0 ==> d.mantissa <= Strip(d).mantissa < 0
    decreases d.scale
  {
    if d.scale > 0 && d.mantissa % 10 == 0 {
      StripShrinks(Decimal(d.mantissa / 10, d.scale - 1));
    }
  }

  // ----- the printer -----

  function DigitsOf(n: nat): (s: string)
    ensures s != [] && AllDigits(s)
  {
    if n < 10 then [Digit(n)] else DigitsOf(n / 10) + [Digit(n % 10)]
  }

  function Zeros(n: nat): (s: string)
    ensures |s| == n && AllDigits(s)
  {
    seq(n, _ => '0')
  }

  function Magnitude(d: Decimal): nat { if d.mantissa < 0 then -d.mantissa else d.mantissa }

  /** The text of a decimal: sign, digits, and a dot that leaves as many digits as the normal form has behind it. */
  function Print(d: Decimal): string
    requires d.scale >= 0
  {
    var n := Strip(d);
    var digits := DigitsOf(Magnitude(n));
    var sign := if n.mantissa < 0 then "-" else "";
    sign + PrintDigits(digits, n.scale)
  }

  function PrintDigits(digits: string, scale: nat): string {
    if scale == 0 then digits
    else if scale >= |digits| then "0" + ("." + (Zeros(scale - |digits|) + digits))
    else digits[..|digits| - scale] + ("." + digits[|digits| - scale..])
  }

  lemma {:induction false} HornerAppend(acc: nat, s: string, t: string)
    requires AllDigits(s) && AllDigits(t)
    ensures AllDigits(s + t) && Horner(acc, s + t) == Horner(Horner(acc, s), t)
    decreases |s|
  {
    if s == [] {
      assert s + t == t;
    } else {
      assert (s + t)[1..] == s[1..] + t;
      HornerAppend(10 * acc + DigitOf(s[0]), s[1..], t);
    }
  }

  lemma {:induction false} DigitsValue(n: nat)
    ensures Horner(0, DigitsOf(n)) == n
  {
    if n >= 10 {
      DigitsValue(n / 10);
      HornerAppend(0, DigitsOf(n / 10), [Digit(n % 10)]);
    }
  }

  lemma {:induction false} ZerosValue(n: nat)
    ensures Horner(0, Zeros(n)) == 0
  {
    if n > 0 {
      ZerosValue(n - 1);
      assert Zeros(n)[1..] == Zeros(n - 1);
    }
  }

  /** The parts of a printed decimal. */
  ghost function Printed(sign: string, digits: string, scale: nat): Parts {
    if scale == 0 then Parts("", sign, digits, "", "", "")
    else if scale >= |digits| then Parts("", sign, "0", ".", Zeros(scale - |digits|) + digits, "")
    else Parts("", sign, digits[..|digits| - scale], ".", digits[|digits| - scale..], "")
  }

  lemma PrintedText(sign: string, digits: string, scale: nat)
    ensures Printed(sign, digits, scale).Text() == sign + PrintDigits(digits, scale)
  {
    hide Zeros;
    var p := Printed(sign, digits, scale);
    PlainText(p);
    assert scale == 0 ==> p.whole + (p.dot + p.fraction) == digits;
  }

  lemma PlainText(p: Parts)
    requires p.lead == "" && p.trail == ""
    ensures p.Text() == p.sign + (p.whole + (p.dot + p.fraction))
  {
    assert p.fraction + p.trail == p.fraction;
    var rest := p.sign + (p.whole + (p.dot + p.fraction));
    assert p.lead + rest == rest;
  }

  lemma PrintedValid(sign: string, digits: string, scale: nat)
    requires sign == "" || sign == "-"
    requires digits != [] && AllDigits(digits)
    ensures Printed(sign, digits, scale).Valid()
    ensures Printed(sign, digits, scale).Magnitude() == Horner(0, digits) && |Printed(sign, digits, scale).fraction| == scale
  {
    hide Zeros, Horner;
    if scale == 0 {
      HornerEmpty(Horner(0, digits));
    } else if scale >= |digits| {
      ZerosValue(scale - |digits|);
      HornerZero();
      HornerAppend(0, Zeros(scale - |digits|), digits);
    } else {
      var k := |digits| - scale;
      assert digits[..k] + digits[k..] == digits;
      HornerAppend(0, digits[..k], digits[k..]);
    }
  }

  lemma HornerZero()
    ensures Horner(0, "0") == 0
  {
  }

  ghost function PartsOf(n: Decimal): Parts
    requires n.scale >= 0
  {
    Printed(if n.mantissa < 0 then "-" else "", DigitsOf(Magnitude(n)), n.scale)
  }

  lemma PartsOfNumber(n: Decimal)
    requires Representable(n) && n.scale >= 0
    ensures PartsOf(n).Valid() && PartsOf(n).Fits() && PartsOf(n).Number() == n
  {
    hide DigitsOf, Horner, Printed;
    var sign, digits := if n.mantissa < 0 then "-" else "", DigitsOf(Magnitude(n));
    PrintedValid(sign, digits, n.scale);
    PrintedSign(sign, digits, n.scale);
    DigitsValue(Magnitude(n));
  }

  lemma PartsOfText(n: Decimal)
    requires n.scale >= 0
    ensures PartsOf(n).Text() == (if n.mantissa < 0 then "-" else "") + PrintDigits(DigitsOf(Magnitude(n)), n.scale)
  {
    hide Printed, PrintDigits, DigitsOf;
    PrintedText(if n.mantissa < 0 then "-" else "", DigitsOf(Magnitude(n)), n.scale);
  }

  /** Printing and reading back gives the normal form, for every 64-bit mantissa and scale from 0 on. */
  lemma RoundTrip(d: Decimal)
    requires Representable(d) && d.scale >= 0
    ensures Read(Print(d)) == Some(Strip(d))
  {
    StripMeaning(d);
    StripShrinks(d);
    StripTwice(d);
    hide Strip, Read, Print, PartsOf, PrintDigits;
    PrintedPieces(d);
    PartsOfText(Strip(d));
    PartsOfNumber(Strip(d));
    ReadParts(PartsOf(Strip(d)));
  }

  lemma PrintedSign(sign: string, digits: string, scale: nat)
    ensures Printed(sign, digits, scale).sign == sign
  {
  }

  lemma StripTwice(d: Decimal)
    requires d.scale >= 0
    ensures Strip(Strip(d)) == Strip(d)
  {
    StripMeaning(d);
  }

  lemma {:induction false} NoLeadingZero(n: nat)
    ensures DigitsOf(n)[0] == '0' ==> n == 0 && DigitsOf(n) == "0"
  {
    if n >= 10 {
      NoLeadingZero(n / 10);
    }
  }

  /**
   * The one way to write a decimal: no space and no plus sign, no zero in front of the whole part unless it is just 0,
   * as many fraction digits as the normal form has, and a dot exactly if there are any.
   */
  lemma PrintedForm(d: Decimal)
    requires Representable(d) && d.scale >= 0
    ensures
      var p := PartsOf(Strip(d));
      && p.Valid() && Print(d) == p.sign + (p.whole + (p.dot + p.fraction)) && p.lead == p.trail == ""
      && (p.sign == "-" <==> d.mantissa < 0) && p.sign != "+"
      && p.whole != "" && (p.whole[0] == '0' ==> p.whole == "0")
      && |p.fraction| == Strip(d).scale && (p.dot == "." <==> p.fraction != "")
  {
    StripMeaning(d);
    StripShrinks(d);
    NoLeadingZero(Magnitude(Strip(d)));
    PartsOfText(Strip(d));
    PartsOfNumber(Strip(d));
    PlainText(PartsOf(Strip(d)));
    hide Strip, DigitsOf, Zeros, Horner, PrintDigits;
  }

  /** A text and what it means, and how it is written. */
  lemma Example()
    ensures Read(" -0120.50") == Some(Decimal(-1205, 1)) && Print(Decimal(-12050, 2)) == "-120.5"
  {
    hide Read, Strip, DigitsOf, PrintDigits;
    ReadExample();
    PrintExample();
  }

  lemma PrintExample()
    ensures DigitsOf(1205) == "1205" && PrintDigits("1205", 1) == "120.5"
    ensures "-" + "120.5" == "-120.5"
  {
    assert DigitsOf(12) == "12";
    assert DigitsOf(120) == "120";
    var digits := "1205";
    assert digits[..3] == "120" && digits[3..] == "5";
  }

  lemma ReadExample()
    ensures Read(" -0120.50") == Some(Decimal(-1205, 1)) && Strip(Decimal(-12050, 2)) == Decimal(-1205, 1)
  {
    var p := Parts(" ", "-", "0120", ".", "50", "");
    assert Horner(0, "0120") == 120 by {
      assert Horner(120, "") == 120 && Horner(12, "0") == 120 && Horner(1, "20") == 120 && Horner(0, "120") == 120;
    }
    assert Horner(120, "50") == 12050 by {
      assert Horner(12050, "") == 12050 && Horner(1205, "0") == 12050;
    }
    assert p.Text() == " -0120.50";
    ReadParts(p);
  }

  /** Two decimals print alike exactly if they denote the same number. */
  lemma PrintsAlike(a: Decimal, b: Decimal)
    requires Representable(a) && Representable(b) && a.scale >= 0 && b.scale >= 0
    ensures Print(a) == Print(b) <==> SameNumber(a, b)
  {
    hide Read;
    RoundTrip(a);
    RoundTrip(b);
    MatchesStripped(a, b);
  }

  // ----- the printer of the runtime -----

  lemma DigitStep(m: nat, tail: string)
    ensures DigitsOf(m) + tail ==
      if m / 10 == 0 then [Digit(m % 10)] + tail else DigitsOf(m / 10) + ([Digit(m % 10)] + tail)
  {
    if m >= 10 {
      assert (DigitsOf(m / 10) + [Digit(m % 10)]) + tail == DigitsOf(m / 10) + ([Digit(m % 10)] + tail);
    }
  }

  lemma RoomForDigits()
    ensures INT64_MAX + 1 < Pow10(31)
  {
    assert Pow10(5) == 100000;
    Pow10Add(5, 5);
    Pow10Add(10, 10);
    assert Pow10(11) == 10 * Pow10(10);
    hide Pow10;
    Pow10Add(11, 20);
  }

  /** The digits of a magnitude, written backwards from the end of a scratch buffer and followed by a NUL. */
  method FillDigits(mag: nat) returns (buf: array<char>, p: nat)
    requires mag <= INT64_MAX + 1
    ensures fresh(buf) && buf.Length == 32 && p < 31
    ensures buf[p..31] == DigitsOf(mag)
  {
    RoomForDigits();
    hide DigitsOf;
    buf := new char[32];
    p := 31;
    buf[p] := '\0';
    var m: nat, more := mag, true;
    assert DigitsOf(m) + buf[p..31] == DigitsOf(m);
    while more
      invariant p <= 31 && (more ==> m < Pow10(p) && p > 0) && (!more ==> p < 31)
      invariant DigitsOf(mag) == if more then DigitsOf(m) + buf[p..31] else buf[p..31]
      decreases more, m
    {
      DigitStep(m, buf[p..31]);
      ghost var tail := buf[p..31];
      p := p - 1;
      buf[p] := Digit(m % 10);
      assert buf[p..31] == [Digit(m % 10)] + tail;
      m := m / 10;
      more := m != 0;
    }
  }

  /** Nothing from this position on has changed. */
  twostate predicate Beyond(out: array<char>, pos: nat)
    reads out
  {
    forall i :: pos <= i < out.Length ==> out[i] == old(out[i])
  }

  /** Appends n characters to what has been written behind the prefix. */
  method CopyChars(out: array<char>, pos: nat, src: array<char>, start: nat, n: nat, ghost prefix: string, ghost done: string)
    requires out != src && pos + n <= out.Length && start + n <= src.Length && out[..pos] == prefix + done
    modifies out
    ensures out[..pos + n] == prefix + (done + src[start..start + n])
    ensures Beyond(out, pos + n)
  {
    var i := 0;
    while i < n
      invariant 0 <= i <= n
      invariant out[..pos + i] == (prefix + done) + src[start..start + i]
      invariant Beyond(out, pos + i)
    {
      out[pos + i] := src[start + i];
      i := i + 1;
    }
    assert (prefix + done) + src[start..start + n] == prefix + (done + src[start..start + n]);
  }

  method PutChar(out: array<char>, pos: nat, c: char, ghost prefix: string, ghost done: string)
    requires pos < out.Length && out[..pos] == prefix + done
    modifies out
    ensures out[..pos + 1] == prefix + (done + [c]) && out[pos] == c
    ensures Beyond(out, pos + 1)
  {
    out[pos] := c;
    assert out[..pos + 1] == out[..pos] + [c];
    assert (prefix + done) + [c] == prefix + (done + [c]);
  }

  method Terminate(out: array<char>, pos: nat)
    requires pos < out.Length
    modifies out
    ensures out[..pos] == old(out[..pos]) && out[pos] == '\0'
    ensures Beyond(out, pos + 1)
  {
    out[pos] := '\0';
  }

  /**
   * Prints into a buffer. It fails exactly if the scale is negative or the text and its NUL do not fit, and never
   * writes past the size it is given.
   */
  method Text(value: Decimal, out: array<char>, outSize: nat) returns (ok: bool)
    requires Representable(value) && outSize <= out.Length
    modifies out
    ensures ok <==> value.scale >= 0 && |Print(value)| < outSize
    ensures ok ==> out[..|Print(value)|] == Print(value) && out[|Print(value)|] == '\0'
    ensures Beyond(out, outSize)
  {
    hide Print, DigitsOf, Strip, PrintDigits;
    if outSize == 0 {
      return false;
    }
    var n;
    ok, n := Normalize(value);
    if !ok {
      return false;
    }
    StripShrinks(value);
    PrintedPieces(value);
    var negative := n.mantissa < 0;
    var mag := if negative then -(n.mantissa + 1) + 1 else n.mantissa;
    var digits, p := FillDigits(mag);
    ok := TextSigned(out, outSize, negative, digits, p, n.scale);
  }

  method TextSigned(out: array<char>, outSize: nat, negative: bool, digits: array<char>, p: nat, scale: nat) returns (ok: bool)
    requires out != digits && 0 < outSize <= out.Length && digits.Length == 32 && p < 31
    modifies out
    ensures var s := (if negative then "-" else "") + PrintDigits(digits[p..31], scale);
      && (ok <==> |s| < outSize)
      && (ok ==> out[..|s|] == s && out[|s|] == '\0')
    ensures Beyond(out, outSize)
  {
    hide PrintDigits;
    var pos := 0;
    assert out[..0] == "";
    if negative {
      if pos + 1 >= outSize {
        return false;
      }
      PutChar(out, pos, '-', "", "");
      assert "" + ("" + ['-']) == "-";
      pos := pos + 1;
    }
    ok := TextBody(out, outSize, pos, digits, p, 31 - p, scale);
  }

  lemma PrintedPieces(d: Decimal)
    requires d.scale >= 0
    ensures var n := Strip(d);
      Print(d) == (if n.mantissa < 0 then "-" else "") + PrintDigits(DigitsOf(Magnitude(n)), n.scale)
  {
  }

  /** What follows the sign. */
  method TextBody(out: array<char>, outSize: nat, start: nat, digits: array<char>, p: nat, count: nat, scale: nat)
    returns (ok: bool)
    requires out != digits && start <= outSize <= out.Length && digits.Length == 32 && p + count == 31 && count > 0
    modifies out
    ensures var s := PrintDigits(digits[p..31], scale);
      && (ok <==> start + |s| < outSize)
      && (ok ==> out[..start + |s|] == old(out[..start]) + s && out[start + |s|] == '\0')
    ensures Beyond(out, outSize)
  {
    hide PrintDigits, Beyond, Zeros;
    Shapes(digits[p..31], scale);
    if scale == 0 {
      ok := TextWhole(out, outSize, start, digits, p, count);
    } else if scale >= count {
      ok := TextFraction(out, outSize, start, digits, p, count, scale - count);
    } else {
      ok := TextSplit(out, outSize, start, digits, p, count, count - scale);
    }
  }

  lemma Shapes(digits: string, scale: nat)
    ensures scale == 0 ==> PrintDigits(digits, scale) == digits
    ensures scale > 0 && scale >= |digits| ==>
      PrintDigits(digits, scale) == "0" + ("." + (Zeros(scale - |digits|) + digits))
    ensures 0 < scale < |digits| ==>
      PrintDigits(digits, scale) == digits[..|digits| - scale] + ("." + digits[|digits| - scale..])
  {
  }

  method TextWhole(out: array<char>, outSize: nat, start: nat, digits: array<char>, p: nat, count: nat) returns (ok: bool)
    requires out != digits && start <= outSize <= out.Length && digits.Length == 32 && p + count == 31
    modifies out
    ensures var s := digits[p..31];
      && (ok <==> start + |s| < outSize)
      && (ok ==> out[..start + |s|] == old(out[..start]) + s && out[start + |s|] == '\0')
    ensures Beyond(out, outSize)
  {
    if start + count >= outSize {
      return false;
    }
    ghost var prefix := out[..start];
    assert prefix + "" == prefix;
    CopyChars(out, start, digits, p, count, prefix, "");
    Terminate(out, start + count);
    assert "" + digits[p..31] == digits[p..31];
    return true;
  }

  /** Digits on both sides of the dot. */
  method TextSplit(out: array<char>, outSize: nat, start: nat, digits: array<char>, p: nat, count: nat, whole: nat)
    returns (ok: bool)
    requires out != digits && start <= outSize <= out.Length && digits.Length == 32 && p + count == 31 && whole <= count
    modifies out
    ensures var s := digits[p..31][..whole] + ("." + digits[p..31][whole..]);
      && (ok <==> start + |s| < outSize)
      && (ok ==> out[..start + |s|] == old(out[..start]) + s && out[start + |s|] == '\0')
    ensures Beyond(out, outSize)
  {
    if start + count + 1 >= outSize {
      return false;
    }
    ghost var prefix := out[..start];
    assert prefix + "" == prefix;
    CopyChars(out, start, digits, p, whole, prefix, "");
    ghost var head := "" + digits[p..p + whole];
    PutChar(out, start + whole, '.', prefix, head);
    CopyChars(out, start + whole + 1, digits, p + whole, count - whole, prefix, head + ".");
    Terminate(out, start + count + 1);
    Halves(digits, p, whole);
    SplitDigits(digits[p..31], digits[p..p + whole], digits[p + whole..31], whole);
    return true;
  }

  lemma Halves(digits: array<char>, p: nat, whole: nat)
    requires digits.Length == 32 && p + whole <= 31
    ensures digits[p..p + whole] == digits[p..31][..whole] && digits[p + whole..31] == digits[p..31][whole..]
  {
  }

  lemma SplitDigits(digits: string, head: string, tail: string, whole: nat)
    requires whole <= |digits| && head == digits[..whole] && tail == digits[whole..]
    ensures (("" + head) + ".") + tail == digits[..whole] + ("." + digits[whole..])
  {
    assert ("" + head) + "." == head + ".";
    assert (head + ".") + tail == head + ("." + tail);
  }

  /** No digit before the dot: a zero, the dot, zeros, and all the digits. */
  method TextFraction(out: array<char>, outSize: nat, start: nat, digits: array<char>, p: nat, count: nat, zeros: nat)
    returns (ok: bool)
    requires out != digits && start <= outSize <= out.Length && digits.Length == 32 && p + count == 31
    modifies out
    ensures var s := "0" + ("." + (Zeros(zeros) + digits[p..31]));
      && (ok <==> start + |s| < outSize)
      && (ok ==> out[..start + |s|] == old(out[..start]) + s && out[start + |s|] == '\0')
    ensures Beyond(out, outSize)
  {
    if start + 2 + zeros + count >= outSize {
      return false;
    }
    ghost var prefix := out[..start];
    assert prefix + "" == prefix;
    PutChar(out, start, '0', prefix, "");
    PutChar(out, start + 1, '.', prefix, "" + "0");
    ghost var head := ("" + "0") + ".";
    var k := 0;
    assert head + Zeros(0) == head;
    while k < zeros
      invariant 0 <= k <= zeros && out[..start + 2 + k] == prefix + (head + Zeros(k))
      invariant Beyond(out, start + 2 + k)
    {
      PutChar(out, start + 2 + k, '0', prefix, head + Zeros(k));
      OneMoreZero(head, k);
      k := k + 1;
    }
    CopyChars(out, start + 2 + zeros, digits, p, count, prefix, head + Zeros(zeros));
    Terminate(out, start + 2 + zeros + count);
    JoinZeros(head, Zeros(zeros), digits[p..31]);
    return true;
  }

  lemma OneMoreZero(head: string, k: nat)
    ensures (head + Zeros(k)) + "0" == head + Zeros(k + 1)
  {
    assert Zeros(k + 1) == Zeros(k) + "0";
  }

  lemma JoinZeros(head: string, zeros: string, digits: string)
    requires head == ("" + "0") + "."
    ensures (head + zeros) + digits == "0" + ("." + (zeros + digits))
  {
    assert head == "0" + ".";
    assert (head + zeros) + digits == head + (zeros + digits);
  }
}
