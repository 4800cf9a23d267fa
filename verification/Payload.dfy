/**
  JSON values as the node sends them, 32-byte hashes, the unsafe-payload envelope with its two
  accessors, and the RPC proxy's parameter normalisation.
*/
module Payload {
  import opened Prelude
  import opened Quantity

  /** A JSON number either is an unsigned 64-bit integer or is one `as_u64` refuses. */
  datatype JsonNumber = Unsigned64(n: nat) | NotUnsigned64

  datatype Value =
    | Null
    | Bool(b: bool)
    | Number(num: JsonNumber)
    | String(s: string)
    | Array(items: seq<Value>)
    | Object(fields: map<string, Value>)
  {
    function Get(key: string): Option<Value> {
      if Object? && key in fields then Some(fields[key]) else None
    }

    /** `get(a).or_else(|| get(b))`: the second key only when the first is absent. */
    function GetEither(first: string, second: string): Option<Value> {
      if Get(first).Some? then Get(first) else Get(second)
    }
  }

  datatype TypeError =
    | InvalidHash
    | MissingField
    | InvalidBlockNumber
    | MissingExecutionPayload

  // ---------- hashes ----------

  type Byte = n: int | 0 <= n < 256

  type Hash = h: seq<Byte> | |h| == 32 witness seq(32, _ => 0)

  /** Byte `i` of the hash is written by hex digits `2i` and `2i + 1`. */
  function PairValue(hex: string, i: nat): Byte
    requires 2 * i + 1 < |hex| && AllDigits(hex, 16)
  {
    HexValue(hex[2 * i]).value * 16 + HexValue(hex[2 * i + 1]).value
  }

  predicate IsHashText(text: string) {
    |text| == 66 && text[0] == '0' && text[1] == 'x' && AllDigits(text[2..], 16)
  }

  function ParseHash(text: string): Result<Hash, TypeError> {
    if IsHashText(text) then Ok(seq(32, i requires 0 <= i < 32 => PairValue(text[2..], i)))
    else Err(InvalidHash)
  }

  /** `Hash::from_str`: strip the prefix, check the length, then decode into a byte buffer. */
  method HashFromStr(text: string) returns (r: Result<Hash, TypeError>)
    ensures r == ParseHash(text)
  {
    if |text| < 2 || text[..2] != "0x" {
      return Err(InvalidHash);
    }
    var stripped := text[2..];
    if |stripped| != 64 {
      return Err(InvalidHash);
    }
    var bytes := new Byte[32](_ => 0);
    var i := 0;
    while i < 32
      invariant 0 <= i <= 32
      invariant forall k :: 0 <= k < 2 * i ==> IsDigit(stripped[k], 16)
      invariant forall k :: 0 <= k < i ==>
                  bytes[k] == HexValue(stripped[2 * k]).value * 16 + HexValue(stripped[2 * k + 1]).value
    {
      if !IsDigit(stripped[2 * i], 16) || !IsDigit(stripped[2 * i + 1], 16) {
        return Err(InvalidHash);
      }
      bytes[i] := HexValue(stripped[2 * i]).value * 16 + HexValue(stripped[2 * i + 1]).value;
      i := i + 1;
    }
    assert AllDigits(stripped, 16);
    r := Ok(bytes[..]);
    assert r.value == ParseHash(text).value;
  }

  function HashDigit(h: Hash, i: nat): char
    requires i < 64
  {
    if i % 2 == 0 then HexChar(h[i / 2] / 16) else HexChar(h[i / 2] % 16)
  }

  /** `Display for Hash`: `0x` and sixty-four lower-case digits. */
  function PrintHash(h: Hash): string {
    "0x" + seq(64, i requires 0 <= i < 64 => HashDigit(h, i))
  }

  lemma HashDigitsAreHex(h: Hash, i: nat)
    requires i < 64
    ensures IsDigit(HashDigit(h, i), 16)
    ensures HexValue(HashDigit(h, i)).value == if i % 2 == 0 then h[i / 2] / 16 else h[i / 2] % 16
  {
  }

  lemma PrintedPair(h: Hash, hex: string, i: nat)
    requires i < 32 && |hex| == 64 && hex[2 * i] == HashDigit(h, 2 * i) && hex[2 * i + 1] == HashDigit(h, 2 * i + 1)
    ensures IsDigit(hex[2 * i], 16) && IsDigit(hex[2 * i + 1], 16)
    ensures HexValue(hex[2 * i]).value * 16 + HexValue(hex[2 * i + 1]).value == h[i]
  {
    HashDigitsAreHex(h, 2 * i);
    HashDigitsAreHex(h, 2 * i + 1);
  }

  /** Parsing what was printed gives the hash back. */
  lemma HashPrintParse(h: Hash)
    ensures ParseHash(PrintHash(h)) == Ok(h)
  {
    var text := PrintHash(h);
    var hex := text[2..];
    forall i | 0 <= i < 64 ensures hex[i] == HashDigit(h, i) && IsDigit(hex[i], 16) {
      HashDigitsAreHex(h, i);
    }
    forall i | 0 <= i < 32 ensures PairValue(hex, i) == h[i] {
      PrintedPair(h, hex, i);
    }
    assert ParseHash(text).value == h;
  }

  /** Exactly the prefix and sixty-four digits, of either case, are a hash. */
  lemma HashAcceptsIff(text: string)
    ensures ParseHash(text).Ok? <==>
              && |text| == 66 && text[0] == '0' && text[1] == 'x'
              && forall i :: 2 <= i < 66 ==> text[i] in DIGITS || text[i] in UPPER_DIGITS
  {
    if |text| == 66 {
      forall i | 2 <= i < 66 ensures IsDigit(text[i], 16) <==> text[i] in DIGITS || text[i] in UPPER_DIGITS {
        HexAlphabet(text[i], 0);
      }
      assert forall i :: 2 <= i < 66 ==> text[2..][i - 2] == text[i];
    }
  }

  lemma SplitPair(a: nat, b: nat)
    requires a < 16 && b < 16
    ensures (a * 16 + b) / 16 == a && (a * 16 + b) % 16 == b
  {
  }

  lemma ParsedDigit(text: string, i: nat)
    requires ParseHash(text).Ok? && i < 64
    ensures HashDigit(ParseHash(text).value, i) == LowerChar(text[2..][i])
  {
    var hex, k := text[2..], i / 2;
    assert ParseHash(text).value[k] == PairValue(hex, k);
    HexValueRoundTrip(hex[2 * k]);
    HexValueRoundTrip(hex[2 * k + 1]);
    SplitPair(HexValue(hex[2 * k]).value, HexValue(hex[2 * k + 1]).value);
  }

  /** Printing what was parsed gives the text back in lower case, so parsing identifies only letter case. */
  lemma HashParsePrint(text: string)
    requires ParseHash(text).Ok?
    ensures PrintHash(ParseHash(text).value) == "0x" + Lower(text[2..])
  {
    var hex, h := text[2..], ParseHash(text).value;
    forall i | 0 <= i < 64 ensures HashDigit(h, i) == LowerChar(hex[i]) {
      ParsedDigit(text, i);
    }
    assert seq(64, i requires 0 <= i < 64 => HashDigit(h, i)) == Lower(hex);
  }

  // ---------- quantities ----------

  function ParseQuantity(value: Value): Result<nat, TypeError> {
    match value
    case Number(num) => if num.Unsigned64? && num.n <= U64_MAX then Ok(num.n) else Err(InvalidBlockNumber)
    case String(s) =>
      var parsed := if |s| >= 2 && s[..2] == "0x" then FromStrRadix(s[2..], 16) else FromStrRadix(s, 10);
      if parsed.Some? then Ok(parsed.value) else Err(InvalidBlockNumber)
    case _ => Err(InvalidBlockNumber)
  }

  /** The digits of a quantity string and their base: hexadecimal after `0x`, decimal otherwise. */
  function QuantityDigits(s: string): (string, nat) {
    if |s| >= 2 && s[..2] == "0x" then (Unsigned(s[2..]), 16) else (Unsigned(s), 10)
  }

  /** Strings are read as exactly the 64-bit number their digits denote, and nothing else is read at all. */
  lemma ParseQuantityMeaning(value: Value)
    ensures value.String? ==>
              var (digits, radix) := QuantityDigits(value.s);
              ParseQuantity(value) ==
              if digits != "" && AllDigits(digits, radix) && PosValue(digits, radix) <= U64_MAX
              then Ok(PosValue(digits, radix)) else Err(InvalidBlockNumber)
    ensures value.Number? ==>
              ParseQuantity(value) ==
              if value.num.Unsigned64? && value.num.n <= U64_MAX then Ok(value.num.n) else Err(InvalidBlockNumber)
    ensures !value.String? && !value.Number? ==> ParseQuantity(value) == Err(InvalidBlockNumber)
  {
    if value.String? {
      var s := value.s;
      if |s| >= 2 && s[..2] == "0x" {
        FromStrRadixMeaning(s[2..], 16);
      } else {
        FromStrRadixMeaning(s, 10);
      }
    }
  }

  /** `parse_quantity` inverts hexadecimal printing for every u64, and refuses anything wider. */
  lemma ParseInvertsFormat(n: nat)
    ensures ParseQuantity(String(FormatHex(n))) == if n <= U64_MAX then Ok(n) else Err(InvalidBlockNumber)
  {
    HexDigitsDenote(n);
    var s := FormatHex(n);
    assert s[2..] == HexDigits(n) && s[..2] == "0x";
    assert Unsigned(s[2..]) == s[2..] by { assert IsDigit(s[2..][0], 16); }
    FromStrRadixMeaning(s[2..], 16);
  }

  /** The shape the proxy insists on beyond what the parser asks for: lower prefix, no sign, no leading zero. */
  predicate StrictHex(raw: string) {
    |raw| > 2 && raw[..2] == "0x" && raw[2] != '+' && (|raw| == 3 || raw[2] != '0')
  }

  lemma LowerPrefixCompared(raw: string)
    requires |raw| >= 2 && raw[..2] == "0x"
    ensures DecodeHexQuantity(raw).Ok? <==> ParseQuantity(String(raw)).Ok? && StrictHex(raw)
    ensures DecodeHexQuantity(raw).Ok? ==> ParseQuantity(String(raw)) == Ok(DecodeHexQuantity(raw).value)
  {
    DecodeMeaning(raw);
    var hex := raw[2..];
    assert raw[..2][0] == raw[0] && raw[..2][1] == raw[1];
    FromStrRadixMeaning(hex, 16);
    if StrictHex(raw) {
      assert Unsigned(hex) == hex;
    } else if hex != "" && hex[0] == '+' {
      assert !IsDigit(hex[0], 16);
    }
  }

  lemma UpperPrefixRefused(raw: string)
    requires |raw| >= 2 && raw[0] == '0' && raw[1] == 'X'
    ensures ParseQuantity(String(raw)).Err?
  {
    assert raw[..2][1] == 'X';
    FromStrRadixMeaning(raw, 10);
    assert Unsigned(raw) == raw && !IsDigit(raw[1], 10);
  }

  /**
    The proxy's decoder and the payload parser on any string: where both accept they read the same number;
    the decoder alone accepts exactly what it accepts behind `0X`, and the parser alone exactly what it
    accepts without that stricter shape, such as `0x01`, `0x+5` and decimal text.
  */
  lemma ParsersCompared(raw: string)
    ensures var decoded, parsed := DecodeHexQuantity(raw), ParseQuantity(String(raw));
            && (decoded.Ok? && parsed.Ok? ==> decoded.value == parsed.value)
            && (decoded.Ok? && parsed.Err? <==> decoded.Ok? && |raw| > 1 && raw[1] == 'X')
            && (parsed.Ok? && decoded.Err? <==> parsed.Ok? && !StrictHex(raw))
  {
    if |raw| >= 2 && raw[0] == '0' && raw[1] == 'x' {
      assert raw[..2] == "0x";
      LowerPrefixCompared(raw);
    } else if |raw| >= 2 && raw[0] == '0' && raw[1] == 'X' {
      UpperPrefixRefused(raw);
      assert raw[..2][1] == 'X';
    } else {
      assert |raw| >= 2 ==> raw[..2][0] == raw[0] && raw[..2][1] == raw[1];
    }
  }

  /** A string only the decoder accepts, and three that only the parser does. */
  lemma DecoderAlone()
    ensures DecodeHexQuantity("0X5") == Ok(5) && ParseQuantity(String("0X5")).Err?
  {
  }

  lemma ParserAlone()
    ensures DecodeHexQuantity("0x01").Err? && ParseQuantity(String("0x01")) == Ok(1)
    ensures DecodeHexQuantity("0x+5").Err? && ParseQuantity(String("0x+5")) == Ok(5)
    ensures DecodeHexQuantity("10").Err? && ParseQuantity(String("10")) == Ok(10)
  {
  }

  // ---------- the unsafe payload ----------

  datatype PayloadEnvelope = PayloadEnvelope(raw: Value)
  {
    function ExecutionPayload(): Result<Value, TypeError> {
      var p := raw.GetEither("executionPayload", "execution_payload");
      if p.Some? then Ok(p.value) else Err(MissingExecutionPayload)
    }

    function BlockHash(): Result<Hash, TypeError> {
      match ExecutionPayload()
      case Err(e) => Err(e)
      case Ok(payload) =>
        var text := payload.GetEither("blockHash", "block_hash");
        if text.Some? && text.value.String? then ParseHash(text.value.s) else Err(MissingField)
    }

    function BlockNumber(): Result<nat, TypeError> {
      match ExecutionPayload()
      case Err(e) => Err(e)
      case Ok(payload) =>
        var number := payload.GetEither("blockNumber", "block_number");
        if number.Some? then ParseQuantity(number.value) else Err(MissingField)
    }

    predicate Valid() {
      BlockNumber().Ok? && BlockHash().Ok?
    }

    function Number(): nat
      requires Valid()
    {
      BlockNumber().value
    }
  }

  /** The envelope a node would send for a block. */
  function Encode(number: nat, hash: Hash): PayloadEnvelope {
    PayloadEnvelope(Object(map["executionPayload" := Object(map[
      "blockHash" := String(PrintHash(hash)), "blockNumber" := String(FormatHex(number))])]))
  }

  /** Every 64-bit number and every hash survive the envelope, and nothing wider is accepted. */
  lemma EncodeRoundTrip(number: nat, hash: Hash)
    ensures Encode(number, hash).BlockHash() == Ok(hash)
    ensures Encode(number, hash).Valid() <==> number <= U64_MAX
    ensures number <= U64_MAX ==> Encode(number, hash).Number() == number
  {
    HashPrintParse(hash);
    ParseInvertsFormat(number);
  }

  /** The first spelling that is present. */
  function Spelt(fields: map<string, Value>, camel: string, snake: string): Option<Value> {
    if camel in fields then Some(fields[camel]) else if snake in fields then Some(fields[snake]) else None
  }

  /** Where the two accessors look: under either spelling, the camel-case one hiding the other, in the payload only. */
  lemma AccessorsMeaning(fields: map<string, Value>)
    ensures Spelt(fields, "executionPayload", "execution_payload").None? ==>
              && PayloadEnvelope(Object(fields)).BlockHash() == Err(MissingExecutionPayload)
              && PayloadEnvelope(Object(fields)).BlockNumber() == Err(MissingExecutionPayload)
    ensures Spelt(fields, "executionPayload", "execution_payload").Some? ==>
              var payload := Spelt(fields, "executionPayload", "execution_payload").value;
              var inner := if payload.Object? then payload.fields else map[];
              var text, number := Spelt(inner, "blockHash", "block_hash"), Spelt(inner, "blockNumber", "block_number");
              && PayloadEnvelope(Object(fields)).BlockHash()
                 == (if text.Some? && text.value.String? then ParseHash(text.value.s) else Err(MissingField))
              && PayloadEnvelope(Object(fields)).BlockNumber()
                 == if number.Some? then ParseQuantity(number.value) else Err(MissingField)
  {
  }

  // ---------- proxy parameters ----------

  predicate IsBlockTag(s: string) {
    s == "earliest" || s == "latest" || s == "pending" || s == "safe" || s == "finalized"
  }

  /** The block argument: a tag is kept, a number is decoded, range-checked and printed again. */
  function NormaliseBlock(raw: string): Result<string, RpcError> {
    if IsBlockTag(raw) then Ok(raw)
    else match DecodeHexQuantity(raw)
      case Err(e) => Err(e)
      case Ok(n) => if n > I64_MAX then Err(OutOfRange) else Ok(FormatHex(n))
  }

  function EthGetBlockByNumberProxyParams(params: Value): Result<Value, RpcError> {
    if !params.Array? || |params.items| != 2 || !params.items[0].String? then Err(WrongParams)
    else match NormaliseBlock(params.items[0].s)
      case Err(e) => Err(e)
      case Ok(block) =>
        if params.items[1].Bool? then Ok(Array([String(block), params.items[1]])) else Err(WrongParams)
  }

  function OutputAtBlockProxyParams(params: Value): Result<Value, RpcError> {
    if !params.Array? || |params.items| != 1 || !params.items[0].String? then Err(WrongParams)
    else match DecodeHexQuantity(params.items[0].s)
      case Err(e) => Err(e)
      case Ok(n) => Ok(Array([String(FormatHex(n))]))
  }

  lemma TagsAreNotNumbers(raw: string)
    requires StripHexPrefix(raw).Some?
    ensures !IsBlockTag(raw)
  {
  }

  /** The forwarded block argument is a fixed point and asks for the same block, at most i64::MAX. */
  lemma NormaliseBlockKeepsBlock(raw: string)
    requires NormaliseBlock(raw).Ok?
    ensures var out := NormaliseBlock(raw).value;
            && NormaliseBlock(out) == Ok(out)
            && (IsBlockTag(raw) ==> out == raw)
            && (!IsBlockTag(raw) ==> CanonicalHexQuantity(raw) == Ok(out) && Denotes(raw) <= I64_MAX)
  {
    if !IsBlockTag(raw) {
      DecodeMeaning(raw);
      var n := DecodeHexQuantity(raw).value;
      FormatDecodes(n);
      TagsAreNotNumbers(FormatHex(n));
    }
  }

  /** Exactly the five tags and the accepted quantities up to i64::MAX are forwarded. */
  lemma NormaliseAcceptsIff(raw: string)
    ensures NormaliseBlock(raw).Ok? <==>
              || raw in {"earliest", "latest", "pending", "safe", "finalized"}
              || (CanonicalHexQuantity(raw).Ok? && Denotes(raw) <= 0x7FFF_FFFF_FFFF_FFFF)
  {
    DecodeMeaning(raw);
    if CanonicalHexQuantity(raw).Ok? { TagsAreNotNumbers(raw); }
  }

  /**
    `eth_getBlockByNumber` is forwarded exactly for a string and a flag whose block normalises; what is
    forwarded keeps the flag, asks for the same block and is itself a fixed point.
  */
  lemma EthGetBlockForwardsSameBlock(params: Value)
    ensures EthGetBlockByNumberProxyParams(params).Ok? <==>
              && params.Array? && |params.items| == 2
              && params.items[0].String? && params.items[1].Bool?
              && NormaliseBlock(params.items[0].s).Ok?
    ensures EthGetBlockByNumberProxyParams(params).Ok? ==>
              var out := EthGetBlockByNumberProxyParams(params).value;
              && EthGetBlockByNumberProxyParams(out) == Ok(out)
              && out == Array([String(NormaliseBlock(params.items[0].s).value), params.items[1]])
  {
    if EthGetBlockByNumberProxyParams(params).Ok? {
      NormaliseBlockKeepsBlock(params.items[0].s);
      var out := EthGetBlockByNumberProxyParams(params).value;
      assert out.items == [String(NormaliseBlock(params.items[0].s).value), params.items[1]];
    }
  }

  /** The same for `optimism_outputAtBlock`, which has no signed limit. */
  lemma OutputAtBlockForwardsSameBlock(params: Value)
    ensures OutputAtBlockProxyParams(params).Ok? <==>
              && params.Array? && |params.items| == 1 && params.items[0].String?
              && CanonicalHexQuantity(params.items[0].s).Ok? && Denotes(params.items[0].s) <= U64_MAX
    ensures OutputAtBlockProxyParams(params).Ok? ==>
              var out := OutputAtBlockProxyParams(params).value;
              && OutputAtBlockProxyParams(out) == Ok(out)
              && out.Array? && |out.items| == 1 && out.items[0].String?
              && CanonicalHexQuantity(params.items[0].s) == Ok(out.items[0].s)
              && Denotes(out.items[0].s) == Denotes(params.items[0].s)
  {
    if params.Array? && |params.items| == 1 && params.items[0].String? {
      var raw := params.items[0].s;
      DecodeMeaning(raw);
      if DecodeHexQuantity(raw).Ok? { FormatDecodes(DecodeHexQuantity(raw).value); }
    }
  }
}
