/** The order of texts and of lists of texts, canonical digests, references into a configuration, and decimal numbers. */
module Texts {
  import opened Bytes

  /** The bytes of a text of characters below 128. */
  function Ascii(text: string): Text {
    seq(|text|, i requires 0 <= i < |text| => if text[i] < 128 as char then text[i] as int else 63)
  }

  predicate LowerHex(b: byte) { 48 <= b <= 57 || 97 <= b <= 102 }

  /** "sha256:" and 64 lower-case hexadecimal digits. */
  predicate CanonicalDigest(digest: Text) {
    && |digest| == 71 && digest[..7] == [115, 104, 97, 50, 53, 54, 58]
    && forall i :: 7 <= i < 71 ==> LowerHex(digest[i])
  }

  lemma LowerHexText(b: byte)
    ensures LowerHex(b) <==> b in Ascii("0123456789abcdef")
  {
    var digits := Ascii("0123456789abcdef");
    assert |digits| == 16;
    if 48 <= b <= 57 { assert digits[b - 48] == b; }
    if 97 <= b <= 102 { assert digits[b - 87] == b; }
  }

  /** A canonical digest is "sha256:" followed by 64 of these digits. */
  lemma DigestText(digest: Text)
    ensures CanonicalDigest(digest) <==>
              && |digest| == 71 && digest[..7] == Ascii("sha256:")
              && forall i :: 7 <= i < 71 ==> digest[i] in Ascii("0123456789abcdef")
  {
    assert Ascii("sha256:") == [115, 104, 97, 50, 53, 54, 58];
    if |digest| == 71 {
      forall i | 7 <= i < 71 ensures LowerHex(digest[i]) <==> digest[i] in Ascii("0123456789abcdef") {
        LowerHexText(digest[i]);
      }
    }
  }

  /** Byte-wise lexicographic order. */
  predicate Less(a: Text, b: Text) {
    b != [] && (a == [] || a[0] < b[0] || (a[0] == b[0] && Less(a[1..], b[1..])))
  }

  lemma {:induction false} LessIsTotal(a: Text, b: Text)
    ensures Less(a, b) || a == b || Less(b, a)
    ensures !(Less(a, b) && Less(b, a)) && (a == b ==> !Less(a, b))
  {
    if a != [] && b != [] {
      LessIsTotal(a[1..], b[1..]);
      assert a == [a[0]] + a[1..] && b == [b[0]] + b[1..];
    }
  }

  lemma {:induction false} LessIsTransitive(a: Text, b: Text, c: Text)
    requires Less(a, b) && Less(b, c)
    ensures Less(a, c)
  {
    if a != [] && a[0] == b[0] == c[0] { LessIsTransitive(a[1..], b[1..], c[1..]); }
  }

  /** The order by its meaning: a proper prefix, or the smaller byte at the first place where they differ. */
  predicate Precedes(a: Text, b: Text) {
    a < b || exists k :: 0 <= k < |a| && k < |b| && a[..k] == b[..k] && a[k] < b[k]
  }

  lemma PrecedesTails(a: Text, b: Text)
    requires a != [] && b != [] && a[0] == b[0]
    ensures Precedes(a, b) <==> Precedes(a[1..], b[1..])
  {
    assert a == [a[0]] + a[1..] && b == [b[0]] + b[1..];
    if k :| 0 <= k < |a| && k < |b| && a[..k] == b[..k] && a[k] < b[k] {
      assert a[1..][..k - 1] == a[..k][1..] && b[1..][..k - 1] == b[..k][1..];
      assert a[1..][k - 1] < b[1..][k - 1];
    }
    if k :| 0 <= k < |a[1..]| && k < |b[1..]| && a[1..][..k] == b[1..][..k] && a[1..][k] < b[1..][k] {
      assert a[..k + 1] == [a[0]] + a[1..][..k] && b[..k + 1] == [b[0]] + b[1..][..k];
      assert a[k + 1] < b[k + 1];
    }
  }

  lemma {:induction false} LessIsPrecedes(a: Text, b: Text)
    ensures Less(a, b) <==> Precedes(a, b)
  {
    if a != [] && b != [] {
      if a[0] == b[0] {
        PrecedesTails(a, b);
        LessIsPrecedes(a[1..], b[1..]);
      } else if a[0] < b[0] {
        assert a[..0] == b[..0];
      }
    }
  }

  /** Field by field, as the derived order of a record compares. */
  predicate LessList(a: seq<Text>, b: seq<Text>) {
    b != [] && (a == [] || Less(a[0], b[0]) || (a[0] == b[0] && LessList(a[1..], b[1..])))
  }

  lemma {:induction false} LessListIsTransitive(a: seq<Text>, b: seq<Text>, c: seq<Text>)
    requires LessList(a, b) && LessList(b, c)
    ensures LessList(a, c)
  {
    if a != [] {
      if Less(a[0], b[0]) && Less(b[0], c[0]) { LessIsTransitive(a[0], b[0], c[0]); }
      LessIsTotal(a[0], a[0]);
      if a[0] == b[0] == c[0] { LessListIsTransitive(a[1..], b[1..], c[1..]); }
    }
  }

  /** Two lists that agree before a place where they differ are ordered by what stands there. */
  lemma {:induction false} FirstDifferenceDecides(a: seq<Text>, b: seq<Text>, k: nat)
    requires k < |a| && k < |b| && a[..k] == b[..k] && a[k] != b[k]
    ensures LessList(a, b) <==> Precedes(a[k], b[k])
  {
    LessIsPrecedes(a[k], b[k]);
    if k > 0 {
      LessIsTotal(a[0], a[0]);
      assert a[0] == a[..k][0] && b[0] == b[..k][0];
      assert a[1..][..k - 1] == a[..k][1..] && b[1..][..k - 1] == b[..k][1..];
      FirstDifferenceDecides(a[1..], b[1..], k - 1);
    }
  }

  /** The same, for lists compared element by element. */
  lemma FirstDifference(a: seq<Text>, b: seq<Text>, k: nat)
    requires k < |a| && k < |b| && (forall i :: 0 <= i < k ==> a[i] == b[i]) && a[k] != b[k]
    ensures LessList(a, b) <==> Precedes(a[k], b[k])
  {
    assert a[..k] == b[..k];
    FirstDifferenceDecides(a, b, k);
  }

  lemma FlagsOrder()
    ensures Precedes([0], [1]) && !Precedes([1], [0])
  {
    var a, b: Text := [0], [1];
    assert a[..0] == b[..0] && a[0] < b[0];
  }

  /** Eight-byte numbers are ordered as numbers. */
  lemma NumbersOrder(m: u64, n: u64)
    ensures Precedes(BigEndian(m, 8), BigEndian(n, 8)) <==> m < n
    ensures BigEndian(m, 8) == BigEndian(n, 8) <==> m == n
  {
    Widths();
    BigEndianRoundTrip(m, 8);
    BigEndianRoundTrip(n, 8);
    if m < n { BigEndianOrder(m, n, 8); }
    if n < m {
      BigEndianOrder(n, m, 8);
      LessIsPrecedes(BigEndian(n, 8), BigEndian(m, 8));
      LessIsPrecedes(BigEndian(m, 8), BigEndian(n, 8));
      LessIsTotal(BigEndian(m, 8), BigEndian(n, 8));
    }
    if m == n {
      LessIsPrecedes(BigEndian(m, 8), BigEndian(n, 8));
      LessIsTotal(BigEndian(m, 8), BigEndian(n, 8));
    }
  }

  /** Numbers of one width compare as their bytes do. */
  lemma {:induction false} BigEndianOrder(m: nat, n: nat, width: nat)
    requires m < n < Pow256(width)
    ensures Precedes(BigEndian(m, width), BigEndian(n, width))
  {
    var a, b := BigEndian(m, width), BigEndian(n, width);
    assert a[..width - 1] == BigEndian(m / 256, width - 1) && b[..width - 1] == BigEndian(n / 256, width - 1);
    if m / 256 == n / 256 {
      assert a[width - 1] < b[width - 1];
    } else {
      BigEndianOrder(m / 256, n / 256, width - 1);
      var k :| 0 <= k < width - 1 && a[..width - 1][..k] == b[..width - 1][..k] && a[..width - 1][k] < b[..width - 1][k];
      assert a[..k] == b[..k] && a[k] < b[k];
    }
  }

  lemma {:induction false} LessListIsStrict(a: seq<Text>)
    ensures !LessList(a, a)
  {
    if a != [] {
      LessIsTotal(a[0], a[0]);
      LessListIsStrict(a[1..]);
    }
  }

  /** A reference to one value of a configuration, with the digest of that value. */
  datatype Attachment = Attachment(pointer: Text, digest: Text)

  function Decimal(n: nat): (digits: Text)
    ensures digits != [] && forall i :: 0 <= i < |digits| ==> 48 <= digits[i] <= 57
  {
    if n < 10 then [48 + n] else Decimal(n / 10) + [48 + n % 10]
  }

  function FromDecimal(digits: Text): int {
    if digits == [] then 0 else 10 * FromDecimal(digits[..|digits| - 1]) + digits[|digits| - 1] - 48
  }

  lemma {:induction false} DecimalRoundTrip(n: nat)
    ensures FromDecimal(Decimal(n)) == n
  {
    if n < 10 {
      assert Decimal(n)[..0] == [];
    } else {
      DecimalRoundTrip(n / 10);
      assert Decimal(n)[..|Decimal(n)| - 1] == Decimal(n / 10);
    }
  }

  /** A number without its `k` lowest decimal digits. */
  function WithoutDigits(n: nat, k: nat): nat {
    if k == 0 then n else WithoutDigits(n / 10, k - 1)
  }

  /** The digit at each place, the most significant first. */
  lemma {:induction false} DecimalPlaces(n: nat, i: nat)
    requires i < |Decimal(n)|
    ensures Decimal(n)[i] == 48 + WithoutDigits(n, |Decimal(n)| - 1 - i) % 10
  {
    if n >= 10 && i < |Decimal(n)| - 1 { DecimalPlaces(n / 10, i); }
  }

  /** Digits without a leading zero, or the one digit zero. */
  predicate CanonicalDecimal(digits: Text) {
    && digits != [] && (|digits| > 1 ==> digits[0] != 48)
    && forall i :: 0 <= i < |digits| ==> 48 <= digits[i] <= 57
  }

  lemma {:induction false} CanonicalIsPositive(digits: Text)
    requires CanonicalDecimal(digits)
    ensures FromDecimal(digits) >= 0 && (digits[0] != 48 ==> FromDecimal(digits) > 0)
  {
    if |digits| > 1 { CanonicalIsPositive(digits[..|digits| - 1]); } else { assert digits[..0] == []; }
  }

  /** A canonical number is the decimal form of its value, so there is one for every value. */
  lemma {:induction false} CanonicalRoundTrip(digits: Text)
    requires CanonicalDecimal(digits)
    ensures FromDecimal(digits) >= 0 && Decimal(FromDecimal(digits)) == digits
  {
    CanonicalIsPositive(digits);
    if |digits| == 1 {
      assert digits[..0] == [];
      assert FromDecimal([]) == 0;
    } else {
      var front, last := digits[..|digits| - 1], digits[|digits| - 1];
      CanonicalRoundTrip(front);
      CanonicalIsPositive(front);
      assert digits == front + [last];
    }
  }

  function Mapped<T, U>(f: T -> U, items: seq<T>): (r: seq<U>)
    ensures |r| == |items| && forall i :: 0 <= i < |r| ==> r[i] == f(items[i])
  {
    seq(|items|, i requires 0 <= i < |items| => f(items[i]))
  }

  /** Lists of fields in strict order throughout. */
  predicate Rising(lists: seq<seq<Text>>) {
    forall i, j :: 0 <= i < j < |lists| ==> LessList(lists[i], lists[j])
  }

  /** Strict order of neighbours is strict order throughout. */
  lemma {:induction false} NeighboursRise(lists: seq<seq<Text>>)
    requires forall i :: 0 < i < |lists| ==> LessList(lists[i - 1], lists[i])
    ensures Rising(lists)
  {
    if lists != [] {
      var front, last := lists[..|lists| - 1], lists[|lists| - 1];
      NeighboursRise(front);
      forall i | 0 <= i < |front| ensures LessList(lists[i], last) {
        if i < |front| - 1 { LessListIsTransitive(lists[i], front[|front| - 1], last); }
      }
    }
  }

  /** The pass over neighbours decides it. */
  method AllRise(lists: seq<seq<Text>>) returns (ok: bool)
    ensures ok <==> Rising(lists)
  {
    for i := 0 to |lists|
      invariant forall k :: 0 < k < i ==> LessList(lists[k - 1], lists[k])
    {
      if i > 0 && !LessList(lists[i - 1], lists[i]) { return false; }
    }
    NeighboursRise(lists);
    return true;
  }

  predicate Distinct<T(==)>(items: seq<T>) {
    forall i, j :: 0 <= i < j < |items| ==> items[i] != items[j]
  }

  /** A growing set finds exactly the repeated items. */
  method AllDistinct<T(==)>(items: seq<T>) returns (ok: bool)
    ensures ok <==> Distinct(items)
  {
    var seen: set<T> := {};
    for i := 0 to |items|
      invariant forall item :: item in seen <==> item in items[..i]
      invariant Distinct(items[..i])
    {
      if items[i] in seen { return false; }
      seen := seen + {items[i]};
    }
    assert items[..|items|] == items;
    return true;
  }
}
