/** Lists of texts as one byte string: each text behind its own eight-byte length. */
module Framing {
  import opened Bytes

  /** A length field: eight bytes, a different one for every length below 2^64. */
  ghost predicate IsHeader(header: nat -> Text) {
    && (forall n: nat :: |header(n)| == 8)
    && forall m: nat, n: nat :: m < U64_LIMIT && n < U64_LIMIT && header(m) == header(n) ==> m == n
  }

  function BigEndian8(n: nat): Text { BigEndian(n, 8) }

  lemma BigEndian8IsHeader()
    ensures IsHeader(BigEndian8)
  {
    Widths();
    forall m: nat, n: nat | m < U64_LIMIT && n < U64_LIMIT && BigEndian8(m) == BigEndian8(n) ensures m == n {
      BigEndianRoundTrip(m, 8);
      BigEndianRoundTrip(n, 8);
    }
  }

  function LittleEndian(n: nat, width: nat): (bytes: Text)
    ensures |bytes| == width
  {
    if width == 0 then [] else [n % 256] + LittleEndian(n / 256, width - 1)
  }

  function LittleEndian8(n: nat): Text { LittleEndian(n, 8) }

  lemma {:induction false} LittleEndianIsInjective(m: nat, n: nat, width: nat)
    requires m < Pow256(width) && n < Pow256(width) && LittleEndian(m, width) == LittleEndian(n, width)
    ensures m == n
  {
    if width > 0 {
      assert LittleEndian(m, width)[0] == LittleEndian(n, width)[0];
      assert LittleEndian(m, width)[1..] == LittleEndian(m / 256, width - 1);
      assert LittleEndian(n, width)[1..] == LittleEndian(n / 256, width - 1);
      LittleEndianIsInjective(m / 256, n / 256, width - 1);
    }
  }

  lemma LittleEndian8IsHeader()
    ensures IsHeader(LittleEndian8)
  {
    Widths();
    forall m: nat, n: nat | m < U64_LIMIT && n < U64_LIMIT && LittleEndian8(m) == LittleEndian8(n) ensures m == n {
      LittleEndianIsInjective(m, n, 8);
    }
  }

  predicate Fits(components: seq<Text>) {
    forall i :: 0 <= i < |components| ==> |components[i]| < U64_LIMIT
  }

  function Frame(header: nat -> Text, component: Text): Text { header(|component|) + component }

  function Framed(header: nat -> Text, components: seq<Text>): Text {
    if components == [] then [] else Frame(header, components[0]) + Framed(header, components[1..])
  }

  lemma {:induction false} FramedOneMore(header: nat -> Text, components: seq<Text>, component: Text)
    ensures Framed(header, components + [component]) == Framed(header, components) + Frame(header, component)
  {
    if components == [] {
      assert components + [component] == [component];
    } else {
      FramedOneMore(header, components[1..], component);
      assert (components + [component])[1..] == components[1..] + [component];
      var first, rest, last := Frame(header, components[0]), Framed(header, components[1..]), Frame(header, component);
      assert first + (rest + last) == first + rest + last;
    }
  }

  /** The places of the little-endian form, the least significant first. */
  lemma {:induction false} LittleEndianPlaces(n: nat, width: nat, i: nat)
    requires i < width
    ensures LittleEndian(n, width)[i] == Shifted(n, i) % 256
  {
    if i > 0 { LittleEndianPlaces(n / 256, width - 1, i - 1); }
  }

  /** Reading frames back, one after another: a length field, then as many bytes; `None` where that does not come out. */
  function Unframed(number: Text -> nat, text: Text): Option<seq<Text>>
    decreases |text|
  {
    if text == [] then Some([])
    else if |text| < 8 || |text| - 8 < number(text[..8]) then None
    else
      var length := number(text[..8]);
      match Unframed(number, text[8 + length..])
      case None => None
      case Some(rest) => Some([text[8..8 + length]] + rest)
  }

  /** `number` reads what `header` writes. */
  ghost predicate ReadsHeader(number: Text -> nat, header: nat -> Text) {
    forall n: nat :: n < U64_LIMIT ==> |header(n)| == 8 && number(header(n)) == n
  }

  function FromLittleEndian(bytes: Text): nat {
    if bytes == [] then 0 else bytes[0] + 256 * FromLittleEndian(bytes[1..])
  }

  lemma {:induction false} LittleEndianRoundTrip(n: nat, width: nat)
    requires n < Pow256(width)
    ensures FromLittleEndian(LittleEndian(n, width)) == n
  {
    if width > 0 {
      LittleEndianRoundTrip(n / 256, width - 1);
      assert LittleEndian(n, width)[1..] == LittleEndian(n / 256, width - 1);
    }
  }

  lemma HeadersAreRead()
    ensures ReadsHeader(FromBigEndian, BigEndian8) && ReadsHeader(FromLittleEndian, LittleEndian8)
  {
    Widths();
    forall n: nat | n < U64_LIMIT ensures FromBigEndian(BigEndian8(n)) == n && FromLittleEndian(LittleEndian8(n)) == n {
      BigEndianRoundTrip(n, 8);
      LittleEndianRoundTrip(n, 8);
    }
  }

  /** A framed list reads back as itself, in order. */
  lemma {:induction false} FramedReadsBack(number: Text -> nat, header: nat -> Text, components: seq<Text>)
    requires ReadsHeader(number, header) && Fits(components)
    ensures Unframed(number, Framed(header, components)) == Some(components)
  {
    if components != [] {
      var first, rest := components[0], Framed(header, components[1..]);
      FramedReadsBack(number, header, components[1..]);
      var text := Frame(header, first) + rest;
      assert text[..8] == header(|first|) && text[8..8 + |first|] == first && text[8 + |first|..] == rest;
      assert components == [first] + components[1..];
    }
  }

  lemma SameFirstFrame(header: nat -> Text, x: Text, y: Text, restX: Text, restY: Text)
    requires IsHeader(header) && |x| < U64_LIMIT && |y| < U64_LIMIT
    requires Frame(header, x) + restX == Frame(header, y) + restY
    ensures x == y && restX == restY
  {
    var a, b := Frame(header, x) + restX, Frame(header, y) + restY;
    assert a[..8] == header(|x|) && b[..8] == header(|y|);
    assert a[8..8 + |x|] == x && b[8..8 + |y|] == y;
    assert a[8 + |x|..] == restX && b[8 + |y|..] == restY;
  }

  /** Different lists of components make different byte strings, whatever their number. */
  lemma {:induction false} FramedIsInjective(header: nat -> Text, a: seq<Text>, b: seq<Text>)
    requires IsHeader(header) && Fits(a) && Fits(b) && Framed(header, a) == Framed(header, b)
    ensures a == b
    decreases |a|
  {
    if a == [] || b == [] {
      assert a != [] ==> |Framed(header, a)| >= 8;
      assert b != [] ==> |Framed(header, b)| >= 8;
    } else {
      SameFirstFrame(header, a[0], b[0], Framed(header, a[1..]), Framed(header, b[1..]));
      FramedIsInjective(header, a[1..], b[1..]);
      assert a == [a[0]] + a[1..] && b == [b[0]] + b[1..];
    }
  }
}
