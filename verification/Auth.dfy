/**
 Session-bound authentication of recovery reports, and the hexadecimal forms of tags and session
 tokens (crates/agent-protocol/src/recovery.rs, crates/agent-protocol/src/model.rs). SHA-256 and the
 JSON form of a report are parameters.
 */
module Auth {
  import opened Bytes
  import opened Recovery

  type octets = seq<bv8>

  const BLOCK_BYTES: nat := 64
  const DIGEST_BYTES: nat := 32

  // "a3s-oci-agent-recovery-v1" and a zero byte
  const DOMAIN: octets := [97, 51, 115, 45, 111, 99, 105, 45, 97, 103, 101, 110, 116, 45, 114, 101, 99, 111, 118,
                           101, 114, 121, 45, 118, 49, 0]

  // ---------------------------------------------------------------- hexadecimal

  predicate IsLowerDigit(c: bv8) { (48 <= c <= 57) || (97 <= c <= 102) }

  predicate IsHexDigit(c: bv8) { IsLowerDigit(c) || (65 <= c <= 70) }

  function Digit(n: bv8): (c: bv8)
    requires n < 16
    ensures IsLowerDigit(c) && Value(c) == n
  {
    if n < 10 then 48 + n else 87 + n
  }

  function Value(c: bv8): (n: bv8)
    requires IsHexDigit(c)
    ensures n < 16 && (IsLowerDigit(c) ==> c == if n < 10 then 48 + n else 87 + n)
  {
    if c <= 57 then c - 48 else if c <= 70 then c - 55 else c - 87
  }

  /** Upper-case digits mean what the lower-case ones mean. */
  lemma UpperIsLower(c: bv8)
    requires 65 <= c <= 70
    ensures Value(c) == Value(c + 32) == c - 55
  {
  }

  lemma Nibbles(b: bv8)
    ensures (b >> 4) < 16 && (b & 15) < 16 && ((b >> 4) << 4) | (b & 15) == b
  {
  }

  lemma Octet(high: bv8, low: bv8)
    requires high < 16 && low < 16
    ensures ((high << 4) | low) >> 4 == high && ((high << 4) | low) & 15 == low
  {
  }

  /** The byte written as these two digits. */
  function Pair(high: bv8, low: bv8): bv8
    requires IsHexDigit(high) && IsHexDigit(low)
  {
    (Value(high) << 4) | Value(low)
  }

  lemma PairOfDigits(b: bv8)
    ensures Pair(HighDigit(b), LowDigit(b)) == b
  {
    Nibbles(b);
  }

  lemma DigitsOfPair(high: bv8, low: bv8)
    requires IsLowerDigit(high) && IsLowerDigit(low)
    ensures HighDigit(Pair(high, low)) == high && LowDigit(Pair(high, low)) == low
  {
    Octet(Value(high), Value(low));
  }

  function HighDigit(b: bv8): bv8 { Nibbles(b); Digit(b >> 4) }

  function LowDigit(b: bv8): bv8 { Nibbles(b); Digit(b & 15) }

  function EncodeHex(bytes: octets): (text: octets)
    ensures |text| == 2 * |bytes|
    ensures forall i :: 0 <= i < |text| ==> IsLowerDigit(text[i])
  {
    if bytes == [] then [] else EncodeHex(bytes[..|bytes| - 1]) + [HighDigit(bytes[|bytes| - 1]), LowDigit(bytes[|bytes| - 1])]
  }

  predicate AllHex(text: octets) { forall i :: 0 <= i < |text| ==> IsHexDigit(text[i]) }

  predicate AllLower(text: octets) { forall i :: 0 <= i < |text| ==> IsLowerDigit(text[i]) }

  function DecodeHex(text: octets): (bytes: octets)
    requires |text| % 2 == 0 && AllHex(text)
    ensures |bytes| == |text| / 2
  {
    if text == [] then []
    else DecodeHex(text[..|text| - 2]) + [Pair(text[|text| - 2], text[|text| - 1])]
  }

  lemma {:induction false} DecodeUndoesEncode(bytes: octets)
    ensures DecodeHex(EncodeHex(bytes)) == bytes
  {
    if bytes != [] {
      var front, last := bytes[..|bytes| - 1], bytes[|bytes| - 1];
      DecodeUndoesEncode(front);
      PairOfDigits(last);
      assert EncodeHex(bytes)[..2 * |front|] == EncodeHex(front);
      assert bytes == front + [last];
    }
  }

  /** Each byte is two digits, the more significant first. */
  lemma {:induction false} EncodePlaces(bytes: octets, i: nat)
    requires i < |bytes|
    ensures Value(EncodeHex(bytes)[2 * i]) == bytes[i] / 16 && Value(EncodeHex(bytes)[2 * i + 1]) == bytes[i] % 16
  {
    if i < |bytes| - 1 { EncodePlaces(bytes[..|bytes| - 1], i); } else { NibblesAreDigits(bytes[i]); }
  }

  lemma NibblesAreDigits(b: bv8)
    ensures b >> 4 == b / 16 && b & 15 == b % 16
  {
  }

  lemma PairIsSum(high: bv8, low: bv8)
    requires IsHexDigit(high) && IsHexDigit(low)
    ensures Pair(high, low) == 16 * Value(high) + Value(low)
  {
    ShiftIsTimes(Value(high), Value(low));
  }

  lemma ShiftIsTimes(high: bv8, low: bv8)
    requires high < 16 && low < 16
    ensures (high << 4) | low == 16 * high + low
  {
  }

  /** And each two digits are a byte, the first sixteen times as heavy. */
  lemma {:induction false} DecodePlaces(text: octets, i: nat)
    requires |text| % 2 == 0 && AllHex(text) && 2 * i < |text|
    ensures DecodeHex(text)[i] == 16 * Value(text[2 * i]) + Value(text[2 * i + 1])
  {
    if 2 * i < |text| - 2 { DecodePlaces(text[..|text| - 2], i); } else { PairIsSum(text[2 * i], text[2 * i + 1]); }
  }

  lemma EncodeOneMore(bytes: octets, b: bv8)
    ensures EncodeHex(bytes + [b]) == EncodeHex(bytes) + [HighDigit(b), LowDigit(b)]
  {
    assert (bytes + [b])[..|bytes|] == bytes;
  }

  lemma {:induction false} EncodeUndoesDecode(text: octets)
    requires |text| % 2 == 0 && AllLower(text)
    ensures EncodeHex(DecodeHex(text)) == text
  {
    if text != [] {
      var front := text[..|text| - 2];
      EncodeUndoesDecode(front);
      var high, low := text[|text| - 2], text[|text| - 1];
      DigitsOfPair(high, low);
      EncodeOneMore(DecodeHex(front), Pair(high, low));
      assert text == front + [high, low];
    }
  }

  /** The pairwise decoding loop shared by tags and tokens. */
  method DecodePairs(text: octets) returns (bytes: array<bv8>)
    requires |text| == 2 * DIGEST_BYTES && AllHex(text)
    ensures fresh(bytes) && bytes.Length == DIGEST_BYTES && bytes[..] == DecodeHex(text)
  {
    bytes := new bv8[DIGEST_BYTES](_ => 0);
    for index := 0 to DIGEST_BYTES
      invariant bytes[..index] == DecodeHex(text[..2 * index])
    {
      assert text[..2 * index + 2][..2 * index] == text[..2 * index];
      bytes[index] := Pair(text[2 * index], text[2 * index + 1]);
    }
    assert text[..2 * DIGEST_BYTES] == text;
    assert bytes[..DIGEST_BYTES] == bytes[..];
  }

  /** Tags are accepted in lower case only, and then decoding is the inverse of encoding. */
  method DecodeTag(text: octets) returns (r: Option<octets>)
    ensures r.Some? <==> |text| == 2 * DIGEST_BYTES && AllLower(text)
    ensures r.Some? ==> |r.value| == DIGEST_BYTES && EncodeHex(r.value) == text
  {
    if |text| != 2 * DIGEST_BYTES || !(forall i :: 0 <= i < |text| ==> IsLowerDigit(text[i])) { return None; }
    var bytes := DecodePairs(text);
    EncodeUndoesDecode(text);
    return Some(bytes[..]);
  }

  /** Tokens are accepted in either case, except the all-zero token. */
  method TokenFromHex(text: octets) returns (r: Option<octets>)
    ensures r.Some? ==> |text| == 2 * DIGEST_BYTES && AllHex(text) && r.value == DecodeHex(text)
    ensures r.None? <==> |text| != 2 * DIGEST_BYTES || !AllHex(text)
                         || forall i :: 0 <= i < DIGEST_BYTES ==> DecodeHex(text)[i] == 0
  {
    if |text| != 2 * DIGEST_BYTES || !(forall i :: 0 <= i < |text| ==> IsHexDigit(text[i])) { return None; }
    var decoded := DecodePairs(text);
    var bytes := decoded[..];
    if forall i :: 0 <= i < |bytes| ==> bytes[i] == 0 { return None; }
    return Some(bytes);
  }

  /** Every token survives its one bootstrap handoff as text. */
  lemma TokenRoundTrip(token: octets)
    requires |token| == DIGEST_BYTES
    ensures AllHex(EncodeHex(token)) && DecodeHex(EncodeHex(token)) == token
  {
    DecodeUndoesEncode(token);
  }

  // ---------------------------------------------------------------- comparison

  lemma FoldStep(difference: bv8, left: bv8, right: bv8)
    ensures difference | (left ^ right) == 0 <==> difference == 0 && left == right
  {
  }

  /** Folding exclusive-or over all positions is equality. */
  method ConstantTimeEquals(left: octets, right: octets) returns (same: bool)
    ensures same <==> left == right
  {
    if |left| != |right| { return false; }
    var difference: bv8 := 0;
    for i := 0 to |left|
      invariant difference == 0 <==> left[..i] == right[..i]
    {
      FoldStep(difference, left[i], right[i]);
      assert left[..i + 1] == left[..i] + [left[i]] && right[..i + 1] == right[..i] + [right[i]];
      difference := difference | (left[i] ^ right[i]);
    }
    assert left[..|left|] == left && right[..|right|] == right;
    return difference == 0;
  }

  // ---------------------------------------------------------------- HMAC

  function Xored(bytes: octets, pad: bv8): (r: octets)
    ensures |r| == |bytes|
  {
    seq(|bytes|, i requires 0 <= i < |bytes| => bytes[i] ^ pad)
  }

  function ZeroPadded(key: octets): (r: octets)
    requires |key| <= BLOCK_BYTES
    ensures |r| == BLOCK_BYTES
  {
    key + seq(BLOCK_BYTES - |key|, _ => 0)
  }

  /** H(K xor opad, H(K xor ipad, text)), as in section 2 of RFC 2104. */
  function Hmac(hash: octets -> octets, key: octets, text: octets): octets
    requires |key| <= BLOCK_BYTES
  {
    hash(Xored(ZeroPadded(key), 0x5c) + hash(Xored(ZeroPadded(key), 0x36) + text))
  }

  /**
   The two hashed inputs, position by position: a block of the key xored with 0x36 before the text, and a
   block of the key xored with 0x5c before the inner digest, the key filled up with zeros in both.
   */
  lemma HmacBlocks(hash: octets -> octets, key: octets, text: octets) returns (inner: octets, outer: octets)
    requires |key| <= BLOCK_BYTES
    ensures |inner| == 64 && |outer| == 64
    ensures forall i :: 0 <= i < 64 ==> inner[i] == (if i < |key| then key[i] ^ 0x36 else 0x36)
    ensures forall i :: 0 <= i < 64 ==> outer[i] == (if i < |key| then key[i] ^ 0x5c else 0x5c)
    ensures Hmac(hash, key, text) == hash(outer + hash(inner + text))
  {
    inner, outer := Xored(ZeroPadded(key), 0x36), Xored(ZeroPadded(key), 0x5c);
    assert 0 ^ (0x36 as bv8) == 0x36 && 0 ^ (0x5c as bv8) == 0x5c;
  }

  lemma PadIsXor(key: octets, pad: bv8, filled: octets)
    requires |key| <= BLOCK_BYTES && |filled| == BLOCK_BYTES
    requires forall i :: 0 <= i < BLOCK_BYTES ==> filled[i] == if i < |key| then pad ^ key[i] else pad
    ensures filled == Xored(ZeroPadded(key), pad)
  {
    forall i | 0 <= i < BLOCK_BYTES ensures filled[i] == Xored(ZeroPadded(key), pad)[i] {
      if i < |key| {
        assert pad ^ key[i] == key[i] ^ pad;
      } else {
        assert ZeroPadded(key)[i] == 0;
        assert pad == 0 ^ pad;
      }
    }
  }

  method HmacSha256(hash: octets -> octets, key: octets, message: octets) returns (r: octets)
    requires |key| <= BLOCK_BYTES
    ensures r == Hmac(hash, key, DOMAIN + message)
  {
    var innerPad := new bv8[BLOCK_BYTES](_ => 0x36);
    var outerPad := new bv8[BLOCK_BYTES](_ => 0x5c);
    for i := 0 to |key|
      invariant forall k :: 0 <= k < BLOCK_BYTES ==> innerPad[k] == if k < i then 0x36 ^ key[k] else 0x36
      invariant forall k :: 0 <= k < BLOCK_BYTES ==> outerPad[k] == if k < i then 0x5c ^ key[k] else 0x5c
    {
      innerPad[i] := innerPad[i] ^ key[i];
      outerPad[i] := outerPad[i] ^ key[i];
    }
    PadIsXor(key, 0x36, innerPad[..]);
    PadIsXor(key, 0x5c, outerPad[..]);
    var inner := hash(innerPad[..] + (DOMAIN + message));
    r := hash(outerPad[..] + inner);
  }

  // ---------------------------------------------------------------- authenticated reports

  ghost predicate IsDigest(hash: octets -> octets) {
    forall text :: |hash(text)| == DIGEST_BYTES
  }

  datatype Authenticated = Authenticated(report: Report, tag: octets)

  datatype Verification = Trusted(report: Report) | BadReport(why: Construction) | MalformedTag | Denied

  /** The one tag a report has under a token. */
  function TagOf(hash: octets -> octets, token: octets, payload: octets): octets
    requires |token| == DIGEST_BYTES
  {
    EncodeHex(Hmac(hash, token, DOMAIN + payload))
  }

  /**
   What a tag is, down to the bytes: the hexadecimal form of the hash of the outer block and the hash of
   the inner block, the domain with its closing zero byte, and the report's canonical form.
   */
  lemma TagInputs(hash: octets -> octets, token: octets, payload: octets) returns (inner: octets, outer: octets)
    requires |token| == 32
    ensures |inner| == 64 && |outer| == 64 && |DOMAIN| == 26 && DOMAIN[25] == 0
    ensures forall i :: 0 <= i < 64 ==> inner[i] == (if i < 32 then token[i] ^ 0x36 else 0x36)
    ensures forall i :: 0 <= i < 64 ==> outer[i] == (if i < 32 then token[i] ^ 0x5c else 0x5c)
    ensures TagOf(hash, token, payload) == EncodeHex(hash(outer + hash(inner + (DOMAIN + payload))))
  {
    inner, outer := HmacBlocks(hash, token, DOMAIN + payload);
  }

  method Authenticate(hash: octets -> octets, canonical: Report -> octets, report: Report, token: octets)
    returns (r: Option<Authenticated>)
    requires |token| == DIGEST_BYTES
    ensures r.Some? <==> Check(report).Built?
    ensures r.Some? ==> r.value == Authenticated(report, TagOf(hash, token, canonical(report)))
  {
    var valid := Validate(report);
    if !valid.Built? { return None; }
    var tag := HmacSha256(hash, token, canonical(report));
    return Some(Authenticated(report, EncodeHex(tag)));
  }

  /** A report is trusted exactly when it is valid and carries its own tag under this token. */
  method Verify(hash: octets -> octets, canonical: Report -> octets, a: Authenticated, token: octets)
    returns (r: Verification)
    requires |token| == DIGEST_BYTES && IsDigest(hash)
    ensures r.Trusted? <==> Check(a.report).Built? && a.tag == TagOf(hash, token, canonical(a.report))
    ensures r.Trusted? ==> r.report == a.report
    ensures r.BadReport? <==> !Check(a.report).Built?
    ensures r.MalformedTag? <==> Check(a.report).Built? && (|a.tag| != 2 * DIGEST_BYTES || !AllLower(a.tag))
  {
    var valid := Validate(a.report);
    if !valid.Built? { return BadReport(valid); }
    var received := DecodeTag(a.tag);
    var expected := HmacSha256(hash, token, canonical(a.report));
    DecodeUndoesEncode(expected);
    if received.None? { return MalformedTag; }
    var same := ConstantTimeEquals(received.value, expected);
    if !same { DecodeUndoesEncode(received.value); return Denied; }
    return Trusted(a.report);
  }

  /** What the guest signs the host trusts, for every report that can be built and every token. */
  method RoundTrip(hash: octets -> octets, canonical: Report -> octets, records: seq<Record>, token: octets)
    returns (r: Option<Report>)
    requires |token| == DIGEST_BYTES && IsDigest(hash)
    ensures r == match Build(records) case Built(report) => Some(report) case _ => None
  {
    var built := NewReport(records);
    if !built.Built? { return None; }
    var signed := Authenticate(hash, canonical, built.report, token);
    var verified := Verify(hash, canonical, signed.value, token);
    return Some(verified.report);
  }
}
