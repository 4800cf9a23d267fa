/**
  Numerals: `u64::from_str_radix` with its overflow checks, the lower-case hexadecimal printer,
  the canonical form used by the RPC proxy, and the laws that tie them together.
*/
module Quantity {
  import opened Prelude

  datatype RpcError =
    | MissingPrefix
    | InvalidNumber
    | LeadingZeroDigits
    | OutOfRange
    | WrongParams

  // ---------- digits ----------

  function HexValue(c: char): Option<nat> {
    if '0' <= c <= '9' then Some(c as nat - '0' as nat)
    else if 'a' <= c <= 'f' then Some(c as nat - 'a' as nat + 10)
    else if 'A' <= c <= 'F' then Some(c as nat - 'A' as nat + 10)
    else None
  }

  predicate IsDigit(c: char, radix: nat) {
    HexValue(c).Some? && HexValue(c).value < radix
  }

  predicate AllDigits(s: string, radix: nat) {
    forall i :: 0 <= i < |s| ==> IsDigit(s[i], radix)
  }

  function HexChar(d: nat): char
    requires d < 16
  {
    if d < 10 then ('0' as nat + d) as char else ('a' as nat + d - 10) as char
  }

  const DIGITS := "0123456789abcdef"
  const UPPER_DIGITS := "0123456789ABCDEF"

  /** The alphabet: sixteen digits in order of their value, letters in either case, and nothing else. */
  lemma HexAlphabet(c: char, d: nat)
    requires d < 16
    ensures HexChar(d) == DIGITS[d]
    ensures HexValue(c) == Some(d) <==> c == DIGITS[d] || c == UPPER_DIGITS[d]
    ensures HexValue(c).Some? <==> c in DIGITS || c in UPPER_DIGITS
  {
    assert HexValue(c).Some? ==> c == DIGITS[HexValue(c).value] || c == UPPER_DIGITS[HexValue(c).value];
  }

  function LowerChar(c: char): char {
    if 'A' <= c <= 'Z' then (c as nat - 'A' as nat + 'a' as nat) as char else c
  }

  function Lower(s: string): string {
    seq(|s|, i requires 0 <= i < |s| => LowerChar(s[i]))
  }

  predicate IsRadix(radix: nat) {
    radix == 10 || radix == 16
  }

  /** What a digit string denotes: the positional value, defined independently of any parser. */
  function PosValue(s: string, radix: nat): nat
    requires IsRadix(radix) && AllDigits(s, radix)
  {
    if s == "" then 0
    else PosValue(s[..|s| - 1], radix) * radix + HexValue(s[|s| - 1]).value
  }

  // ---------- u64::from_str_radix ----------

  /** The library's loop: multiply and add with overflow checks, left to right. */
  function CheckedFold(acc: nat, s: string, radix: nat): Option<nat>
    requires IsRadix(radix)
    decreases |s|
  {
    if s == "" then Some(acc)
    else if !IsDigit(s[0], radix) then None
    else if acc * radix > U64_MAX then None
    else if acc * radix + HexValue(s[0]).value > U64_MAX then None
    else CheckedFold(acc * radix + HexValue(s[0]).value, s[1..], radix)
  }

  /** An optional leading `+` is accepted, a sign on its own is not. */
  function Unsigned(src: string): string {
    if |src| > 1 && src[0] == '+' then src[1..] else src
  }

  function FromStrRadix(src: string, radix: nat): Option<nat>
    requires IsRadix(radix)
  {
    if src == "" then None
    else CheckedFold(0, Unsigned(src), radix)
  }

  lemma {:induction false} PosValueAppend(p: string, s: string, radix: nat)
    requires IsRadix(radix) && AllDigits(p + s, radix)
    ensures AllDigits(p, radix)
    ensures PosValue(p, radix) <= PosValue(p + s, radix)
    decreases |s|
  {
    assert forall i :: 0 <= i < |p| ==> (p + s)[i] == p[i];
    if s == "" {
      assert p + s == p;
    } else {
      var t := s[..|s| - 1];
      assert (p + s)[..|p + s| - 1] == p + t;
      PosValueAppend(p, t, radix);
    }
  }

  lemma PosValueSnoc(p: string, c: char, radix: nat)
    requires IsRadix(radix) && AllDigits(p, radix) && IsDigit(c, radix)
    ensures AllDigits(p + [c], radix)
    ensures PosValue(p + [c], radix) == PosValue(p, radix) * radix + HexValue(c).value
  {
    var q := p + [c];
    assert q[..|q| - 1] == p;
  }

  lemma {:induction false} CheckedFoldMeaning(p: string, s: string, radix: nat)
    requires IsRadix(radix) && AllDigits(p, radix)
    requires PosValue(p, radix) <= U64_MAX
    ensures CheckedFold(PosValue(p, radix), s, radix)
         == (if AllDigits(p + s, radix) && PosValue(p + s, radix) <= U64_MAX
             then Some(PosValue(p + s, radix)) else None)
    decreases |s|
  {
    if s == "" {
      assert p + s == p;
    } else if !IsDigit(s[0], radix) {
      assert (p + s)[|p|] == s[0];
    } else {
      var q := p + [s[0]];
      PosValueSnoc(p, s[0], radix);
      assert p + s == q + s[1..];
      if PosValue(q, radix) <= U64_MAX {
        CheckedFoldMeaning(q, s[1..], radix);
      } else if AllDigits(p + s, radix) {
        PosValueAppend(q, s[1..], radix);
      }
    }
  }

  /** The parser accepts exactly the unsigned digit strings whose positional value fits in 64 bits. */
  lemma FromStrRadixMeaning(src: string, radix: nat)
    requires IsRadix(radix)
    ensures var digits := Unsigned(src);
            FromStrRadix(src, radix) ==
            if digits != "" && AllDigits(digits, radix) && PosValue(digits, radix) <= U64_MAX
            then Some(PosValue(digits, radix)) else None
  {
    if src != "" {
      var digits := Unsigned(src);
      CheckedFoldMeaning("", digits, radix);
      assert "" + digits == digits;
    }
  }

  // ---------- printing ----------

  function HexDigits(n: nat): string {
    if n < 16 then [HexChar(n)] else HexDigits(n / 16) + [HexChar(n % 16)]
  }

  /** `format!("0x{n:x}")`. */
  function FormatHex(n: nat): string {
    "0x" + HexDigits(n)
  }

  /** A lower-case digit string without redundant leading zeros. */
  predicate IsCanonicalDigits(s: string) {
    && s != ""
    && AllDigits(s, 16)
    && Lower(s) == s
    && (|s| > 1 ==> s[0] != '0')
  }

  lemma HexCharRoundTrip(d: nat)
    requires d < 16
    ensures IsDigit(HexChar(d), 16) && HexValue(HexChar(d)).value == d
    ensures LowerChar(HexChar(d)) == HexChar(d)
    ensures HexChar(d) == '0' <==> d == 0
  {
  }

  lemma HexValueRoundTrip(c: char)
    requires IsDigit(c, 16)
    ensures HexChar(HexValue(c).value) == LowerChar(c)
    ensures IsDigit(LowerChar(c), 16) && HexValue(LowerChar(c)) == HexValue(c)
    ensures LowerChar(c) == '0' <==> c == '0'
  {
  }

  /** Printing a number gives canonical digits that denote that number. */
  lemma {:induction false} HexDigitsDenote(n: nat)
    ensures IsCanonicalDigits(HexDigits(n))
    ensures PosValue(HexDigits(n), 16) == n
    ensures n > 0 ==> HexDigits(n)[0] != '0'
  {
    if n < 16 {
      HexCharRoundTrip(n);
      assert HexDigits(n)[..0] == "";
    } else {
      HexDigitsDenote(n / 16);
      HexCharRoundTrip(n % 16);
      var s := HexDigits(n);
      assert s[..|s| - 1] == HexDigits(n / 16);
      assert s[|s| - 1] == HexChar(n % 16);
      assert s[0] == HexDigits(n / 16)[0];
      forall i | 0 <= i < |s| ensures IsDigit(s[i], 16) && Lower(s)[i] == s[i] {
        if i < |s| - 1 {
          assert s[i] == HexDigits(n / 16)[i];
          assert Lower(HexDigits(n / 16))[i] == s[i];
        }
      }
      assert Lower(s) == s;
    }
  }

  lemma HexDigitsStep(v: nat, d: nat)
    requires 0 < v && d < 16
    ensures HexDigits(v * 16 + d) == HexDigits(v) + [HexChar(d)]
  {
  }

  lemma CanonicalFront(s: string)
    requires IsCanonicalDigits(s)
    ensures HexChar(HexValue(s[|s| - 1]).value) == s[|s| - 1] && AllDigits(s[..|s| - 1], 16)
    ensures |s| > 1 ==> IsCanonicalDigits(s[..|s| - 1]) && s[..|s| - 1] != "0"
  {
    var n := |s| - 1;
    assert Lower(s)[n] == s[n];
    HexValueRoundTrip(s[n]);
    if n > 0 {
      assert Lower(s[..n]) == Lower(s)[..n];
      assert s[..n][0] == s[0];
    }
  }

  /** Canonical digits are the printed form of what they denote: no number has two canonical forms. */
  lemma {:induction false} CanonicalDigitsUnique(s: string)
    requires IsCanonicalDigits(s)
    ensures HexDigits(PosValue(s, 16)) == s
    ensures s != "0" ==> PosValue(s, 16) > 0
    decreases |s|
  {
    var front, last := s[..|s| - 1], s[|s| - 1];
    CanonicalFront(s);
    assert s == front + [last];
    PosValueSnoc(front, last, 16);
    if |s| > 1 {
      CanonicalDigitsUnique(front);
      HexDigitsStep(PosValue(front, 16), HexValue(last).value);
    }
  }

  lemma {:induction false} LowerDenotesSame(s: string)
    requires AllDigits(s, 16)
    ensures AllDigits(Lower(s), 16) && PosValue(Lower(s), 16) == PosValue(s, 16)
    ensures Lower(Lower(s)) == Lower(s)
    decreases |s|
  {
    forall i | 0 <= i < |s| ensures IsDigit(Lower(s)[i], 16) && LowerChar(LowerChar(s[i])) == LowerChar(s[i]) {
      HexValueRoundTrip(s[i]);
    }
    assert Lower(Lower(s)) == Lower(s);
    if s != "" {
      var front := s[..|s| - 1];
      LowerDenotesSame(front);
      assert Lower(s)[..|s| - 1] == Lower(front);
      HexValueRoundTrip(s[|s| - 1]);
    }
  }

  // ---------- the proxy's canonical form ----------

  function StripHexPrefix(raw: string): Option<string> {
    if |raw| >= 2 && raw[0] == '0' && (raw[1] == 'x' || raw[1] == 'X') then Some(raw[2..]) else None
  }

  function CanonicalHexQuantity(raw: string): Result<string, RpcError> {
    var hex := StripHexPrefix(raw);
    if hex.None? then Err(MissingPrefix)
    else if hex.value == "" then Err(InvalidNumber)
    else if |hex.value| > 1 && hex.value[0] == '0' then Err(LeadingZeroDigits)
    else if !AllDigits(hex.value, 16) then Err(InvalidNumber)
    else Ok("0x" + Lower(hex.value))
  }

  function DecodeHexQuantity(raw: string): Result<nat, RpcError> {
    match CanonicalHexQuantity(raw)
    case Err(e) => Err(e)
    case Ok(canonical) =>
      match FromStrRadix(canonical[2..], 16)
      case None => Err(InvalidNumber)
      case Some(n) => Ok(n)
  }

  /** Exactly these strings are accepted: a prefix in either case, then hexadecimal digits without a leading zero. */
  lemma CanonicalAcceptsIff(raw: string)
    ensures CanonicalHexQuantity(raw).Ok? <==>
              && |raw| > 2 && raw[0] == '0' && (raw[1] == 'x' || raw[1] == 'X')
              && (forall i :: 2 <= i < |raw| ==> raw[i] in DIGITS || raw[i] in UPPER_DIGITS)
              && (|raw| == 3 || raw[2] != '0')
  {
    forall i | 2 <= i < |raw| ensures IsDigit(raw[i], 16) <==> raw[i] in DIGITS || raw[i] in UPPER_DIGITS {
      HexAlphabet(raw[i], 0);
    }
    if |raw| > 2 {
      assert AllDigits(raw[2..], 16) <==> forall i :: 2 <= i < |raw| ==> IsDigit(raw[i], 16) by {
        assert forall i :: 2 <= i < |raw| ==> raw[2..][i - 2] == raw[i];
      }
    }
  }

  /** The number an accepted quantity string denotes, whatever its length. */
  function Denotes(raw: string): nat
    requires CanonicalHexQuantity(raw).Ok?
  {
    PosValue(raw[2..], 16)
  }

  lemma CanonicalShape(raw: string)
    requires CanonicalHexQuantity(raw).Ok?
    ensures var c := CanonicalHexQuantity(raw).value;
            && |c| > 2 && c[..2] == "0x" && IsCanonicalDigits(c[2..])
            && PosValue(c[2..], 16) == Denotes(raw)
  {
    var hex := raw[2..];
    LowerDenotesSame(hex);
    var c := CanonicalHexQuantity(raw).value;
    assert c[2..] == Lower(hex);
    HexValueRoundTrip(hex[0]);
  }

  /** Canonicalising twice changes nothing, and keeps the number. */
  lemma CanonicalIdempotent(raw: string)
    requires CanonicalHexQuantity(raw).Ok?
    ensures var c := CanonicalHexQuantity(raw).value;
            CanonicalHexQuantity(c) == Ok(c) && Denotes(c) == Denotes(raw)
  {
    CanonicalShape(raw);
    var c := CanonicalHexQuantity(raw).value;
    assert c == "0x" + c[2..];
  }

  /** Two accepted strings, of any length, share a canonical form exactly when they denote one number. */
  lemma CanonicalEqualIffSameNumber(a: string, b: string)
    requires CanonicalHexQuantity(a).Ok? && CanonicalHexQuantity(b).Ok?
    ensures CanonicalHexQuantity(a) == CanonicalHexQuantity(b) <==> Denotes(a) == Denotes(b)
  {
    CanonicalShape(a);
    CanonicalShape(b);
    var ca, cb := CanonicalHexQuantity(a).value, CanonicalHexQuantity(b).value;
    CanonicalDigitsUnique(ca[2..]);
    CanonicalDigitsUnique(cb[2..]);
    assert ca == ca[..2] + ca[2..] && cb == cb[..2] + cb[2..];
  }

  /** Decoding succeeds exactly on accepted strings whose number fits, and printing it back is canonical. */
  lemma DecodeMeaning(raw: string)
    ensures DecodeHexQuantity(raw).Ok? <==> CanonicalHexQuantity(raw).Ok? && Denotes(raw) <= U64_MAX
    ensures DecodeHexQuantity(raw).Ok? ==>
              && DecodeHexQuantity(raw).value == Denotes(raw)
              && CanonicalHexQuantity(raw) == Ok(FormatHex(DecodeHexQuantity(raw).value))
  {
    if CanonicalHexQuantity(raw).Ok? {
      CanonicalShape(raw);
      var c := CanonicalHexQuantity(raw).value;
      assert Unsigned(c[2..]) == c[2..] by { assert IsDigit(c[2..][0], 16); }
      FromStrRadixMeaning(c[2..], 16);
      CanonicalDigitsUnique(c[2..]);
      assert c == c[..2] + c[2..];
    }
  }

  /** Printing any number gives an accepted, already canonical string that decodes to it when it fits. */
  lemma FormatDecodes(n: nat)
    ensures CanonicalHexQuantity(FormatHex(n)) == Ok(FormatHex(n))
    ensures Denotes(FormatHex(n)) == n
    ensures n <= U64_MAX ==> DecodeHexQuantity(FormatHex(n)) == Ok(n)
  {
    HexDigitsDenote(n);
    var s := FormatHex(n);
    assert s[2..] == HexDigits(n);
    DecodeMeaning(s);
  }
}
