/**
 The attachment manifest of a utility VM: canonical order, derived MAC addresses, JSON pointers and
 the guest bundle path (crates/agent-protocol/src/vm_attachment.rs, crates/agent-protocol/src/model.rs).
 The hash is a parameter.
 */
module Manifest {
  import opened Bytes
  import opened Texts
  import opened Framing
  import opened Paths
  import Storage

  const MAX_NETWORK: nat := 256
  const MAX_STORAGE: nat := 128
  const INTERFACE_NAME_BYTES: nat := 15

  // ---------------------------------------------------------------- MAC addresses

  /** Nonzero, locally administered, unicast: bit 0 clear and bit 1 set in the first byte. */
  predicate ValidMac(mac: Text) {
    |mac| == 6 && mac[0] % 2 == 0 && mac[0] / 2 % 2 == 1 && exists i :: 0 <= i < 6 && mac[i] != 0
  }

  datatype NetworkIdentity = NetworkIdentity(namespace: Text, interface: Text, cleanup: Text)

  function Evidence(attachmentDigest: Text, identity: NetworkIdentity, tap: Text): seq<Text> {
    [attachmentDigest, identity.namespace, identity.interface, identity.cleanup, tap]
  }

  // "a3s.oci.agent-vm-network-mac.v1" and a zero byte
  const MAC_DOMAIN: Text := [97, 51, 115, 46, 111, 99, 105, 46, 97, 103, 101, 110, 116, 45, 118, 109, 45, 110, 101, 116,
                             119, 111, 114, 107, 45, 109, 97, 99, 46, 118, 49, 0]

  function MacInput(evidence: seq<Text>): Text { MAC_DOMAIN + Framed(LittleEndian8, evidence) }

  /** The first six digest bytes with the two low bits of the first forced to 10. */
  function DerivedMac(digest: Text): (mac: Text)
    requires |digest| >= 6
    ensures ValidMac(mac) && mac[1..] == digest[1..6] && mac[0] / 4 == digest[0] / 4
  {
    var mac := [digest[0] / 4 * 4 + 2] + digest[1..6];
    assert mac[0] != 0;
    mac
  }

  /** Evidence that differs in any of the five strings is hashed as different bytes. */
  lemma EvidenceIsInjective(d: Text, i: NetworkIdentity, tap: Text, e: Text, j: NetworkIdentity, otherTap: Text)
    requires Fits(Evidence(d, i, tap)) && Fits(Evidence(e, j, otherTap))
    ensures MacInput(Evidence(d, i, tap)) == MacInput(Evidence(e, j, otherTap)) <==> d == e && i == j && tap == otherTap
  {
    var a, b := Evidence(d, i, tap), Evidence(e, j, otherTap);
    if MacInput(a) == MacInput(b) {
      assert MacInput(a)[|MAC_DOMAIN|..] == Framed(LittleEndian8, a);
      assert MacInput(b)[|MAC_DOMAIN|..] == Framed(LittleEndian8, b);
      LittleEndian8IsHeader();
      FramedIsInjective(LittleEndian8, a, b);
      assert a[0] == b[0] && a[1] == b[1] && a[2] == b[2] && a[3] == b[3] && a[4] == b[4];
    }
  }

  /** What is hashed: the domain, then the five strings in this order, each behind its length. */
  lemma EvidenceInOrder(d: Text, i: NetworkIdentity, tap: Text)
    requires Fits([d, i.namespace, i.interface, i.cleanup, tap])
    ensures var input := MacInput(Evidence(d, i, tap));
            && |input| >= 32 && input[..32] == Ascii("a3s.oci.agent-vm-network-mac.v1") + [0]
            && Unframed(FromLittleEndian, input[32..]) == Some([d, i.namespace, i.interface, i.cleanup, tap])
  {
    HeadersAreRead();
    FramedReadsBack(FromLittleEndian, LittleEndian8, [d, i.namespace, i.interface, i.cleanup, tap]);
    MacDomainText();
    assert MacInput(Evidence(d, i, tap))[32..] == Framed(LittleEndian8, [d, i.namespace, i.interface, i.cleanup, tap]);
  }

  lemma MacDomainText()
    ensures |MAC_DOMAIN| == 32 && MAC_DOMAIN == Ascii("a3s.oci.agent-vm-network-mac.v1") + [0]
  {
  }

  predicate ValidInterfaceName(name: Text) {
    && 1 <= |name| <= INTERFACE_NAME_BYTES && name != [46] && name != [46, 46]
    // no slash, colon, zero byte or ASCII white space
    && forall i :: 0 <= i < |name| ==> name[i] !in [47, 58, 0, 32, 9, 10, 12, 13]
  }

  /** An interface name: 1 to 15 bytes, none of them a slash, a colon, NUL or white space, and not "." or "..". */
  lemma InterfaceNamesExactly(name: Text)
    ensures ValidInterfaceName(name) <==>
              && name != [] && |name| < 16 && name != Ascii(".") && name != Ascii("..")
              && forall b <- name :: b !in Ascii("/: \t\n\r") && b != 12 && b != 0
    ensures ValidInterfaceName(name) ==> Plain(name) && Split(name) == [name]
  {
    assert Ascii(".") == [46] && Ascii("..") == [46, 46];
    forall b <- name
      ensures b !in [47, 58, 0, 32, 9, 10, 12, 13] <==> b !in Ascii("/: \t\n\r") && b != 12 && b != 0
    {
      NameByte(b);
    }
    if ValidInterfaceName(name) { NoSlashNoSplit(name); }
  }

  lemma NameByte(b: byte)
    ensures b !in [47, 58, 0, 32, 9, 10, 12, 13] <==> b !in Ascii("/: \t\n\r") && b != 12 && b != 0
  {
    assert Ascii("/: \t\n\r") == [47, 58, 32, 9, 10, 13];
  }

  /** The loop that feeds a domain and length-prefixed strings to the hash. */
  method FeedValues(domain: Text, values: seq<Text>) returns (fed: Text)
    ensures fed == domain + Framed(LittleEndian8, values)
  {
    fed := domain;
    for i := 0 to |values|
      invariant fed == domain + Framed(LittleEndian8, values[..i])
    {
      FramedOneMore(LittleEndian8, values[..i], values[i]);
      assert values[..i + 1] == values[..i] + [values[i]];
      ghost var before := Framed(LittleEndian8, values[..i]);
      assert domain + (before + Frame(LittleEndian8, values[i]))
          == domain + before + LittleEndian(|values[i]|, 8) + values[i];
      fed := fed + LittleEndian(|values[i]|, 8) + values[i];
    }
    assert values[..|values|] == values;
  }

  /** `derive`; its own validity check never fails. */
  method DeriveMac(hash: Text -> Text, attachmentDigest: Text, identity: NetworkIdentity, tap: Text)
    returns (r: Option<Text>)
    requires forall text :: |hash(text)| == 32
    ensures r.Some? <==> CanonicalDigest(attachmentDigest) && ValidInterfaceName(tap)
    ensures r.Some? ==> r.value == DerivedMac(hash(MacInput(Evidence(attachmentDigest, identity, tap)))) && ValidMac(r.value)
  {
    if !CanonicalDigest(attachmentDigest) { return None; }
    if !ValidInterfaceName(tap) { return None; }
    var fed := FeedValues(MAC_DOMAIN, Evidence(attachmentDigest, identity, tap));
    var bytes := DerivedMac(hash(fed));
    if !ValidMac(bytes) {
      assert false;
    }
    return Some(bytes);
  }

  // ---------------------------------------------------------------- JSON pointers

  function ReplaceByte(text: Text, target: byte, with: Text): Text {
    if text == [] then []
    else (if text[0] == target then with else [text[0]]) + ReplaceByte(text[1..], target, with)
  }

  /** First every tilde becomes "~0", then every slash "~1". */
  function Escape(text: Text): Text {
    ReplaceByte(ReplaceByte(text, 126, [126, 48]), 47, [126, 49])
  }

  /** Every occurrence of a tilde and the given digit becomes the given byte, left to right. */
  function ReplacePair(text: Text, digit: byte, with: byte): Text
    decreases |text|
  {
    if text == [] then []
    else if |text| >= 2 && text[0] == 126 && text[1] == digit then [with] + ReplacePair(text[2..], digit, with)
    else [text[0]] + ReplacePair(text[1..], digit, with)
  }

  /** Evaluation as in section 4 of RFC 6901: first "~1" becomes a slash, then "~0" a tilde. */
  function Unescape(text: Text): Text {
    ReplacePair(ReplacePair(text, 49, 47), 48, 126)
  }

  function Tilded(text: Text): Text { ReplaceByte(text, 126, [126, 48]) }

  /** Escaping goes byte by byte. */
  lemma EscapeHead(text: Text)
    requires text != []
    ensures Escape(text) ==
            (if text[0] == 126 then [126, 48] else if text[0] == 47 then [126, 49] else [text[0]]) + Escape(text[1..])
  {
    var rest := Tilded(text[1..]);
    if text[0] == 126 {
      var tilded := [126, 48] + rest;
      assert tilded[1..] == [48] + rest && ([48] + rest)[1..] == rest;
      assert ReplaceByte(tilded, 47, [126, 49]) == [126] + ([48] + ReplaceByte(rest, 47, [126, 49]));
    } else {
      assert ([text[0]] + rest)[1..] == rest;
    }
  }

  lemma {:induction false} SlashesComeBack(text: Text)
    ensures ReplacePair(Escape(text), 49, 47) == Tilded(text)
    decreases |text|
  {
    if text != [] {
      EscapeHead(text);
      SlashesComeBack(text[1..]);
      var rest := Escape(text[1..]);
      if text[0] == 126 {
        var escaped := [126, 48] + rest;
        assert escaped[1..] == [48] + rest && ([48] + rest)[1..] == rest;
        assert ReplacePair([48] + rest, 49, 47) == [48] + ReplacePair(rest, 49, 47);
      } else if text[0] == 47 {
        assert ([126, 49] + rest)[2..] == rest;
      } else {
        assert ([text[0]] + rest)[1..] == rest;
      }
    }
  }

  lemma {:induction false} TildesComeBack(text: Text)
    ensures ReplacePair(Tilded(text), 48, 126) == text
    decreases |text|
  {
    if text != [] {
      TildesComeBack(text[1..]);
      var rest := Tilded(text[1..]);
      assert text == [text[0]] + text[1..];
      if text[0] == 126 {
        assert ([126, 48] + rest)[2..] == rest;
      } else {
        assert ([text[0]] + rest)[1..] == rest;
      }
    }
  }

  /** The standard's decoding undoes the two-pass escaping, for every text. */
  lemma UnescapeUndoesEscape(text: Text)
    ensures Unescape(Escape(text)) == text
  {
    SlashesComeBack(text);
    TildesComeBack(text);
  }

  // "/linux/netDevices/" and "/linux/namespaces/"
  const DEVICES: Text := [47, 108, 105, 110, 117, 120, 47, 110, 101, 116, 68, 101, 118, 105, 99, 101, 115, 47]
  const NAMESPACES: Text := [47, 108, 105, 110, 117, 120, 47, 110, 97, 109, 101, 115, 112, 97, 99, 101, 115, 47]

  function DevicePointer(tap: Text): Text { DEVICES + Escape(tap) }

  /** Different TAP names have different pointers. */
  lemma PointersAreDistinct(tap: Text, other: Text)
    requires DevicePointer(tap) == DevicePointer(other)
    ensures tap == other
  {
    assert DevicePointer(tap)[|DEVICES|..] == Escape(tap);
    assert DevicePointer(other)[|DEVICES|..] == Escape(other);
    UnescapeUndoesEscape(tap);
    UnescapeUndoesEscape(other);
  }

  // ---------------------------------------------------------------- the manifest

  datatype Cleanup = ReleaseRuntimeNamespace | PreserveCallerNamespace

  datatype Entry = Entry(identity: NetworkIdentity, tap: Text, namespace: Attachment, interface: Attachment,
                         cleanup: Cleanup, mac: Text)

  datatype Schema = V1 | V2 | Unknown

  datatype Manifest = Manifest(schema: Schema, generation: Option<nat>, bundle: Text, configDigest: Text,
                               attachmentDigest: Text, network: seq<Entry>, storage: seq<Storage.Entry>)

  /** The fields of an entry in the order the derived comparison takes them. */
  function Fields(e: Entry): seq<Text> {
    [e.identity.namespace, e.identity.interface, e.identity.cleanup, e.tap, e.namespace.pointer, e.namespace.digest,
     e.interface.pointer, e.interface.digest, [if e.cleanup.ReleaseRuntimeNamespace? then 0 else 1], e.mac]
  }

  predicate ValidShape(e: Entry) {
    && ValidInterfaceName(e.tap) && e.cleanup.ReleaseRuntimeNamespace?
    && e.interface.pointer == DevicePointer(e.tap) && NAMESPACES <= e.namespace.pointer
    && CanonicalDigest(e.namespace.digest) && CanonicalDigest(e.interface.digest) && ValidMac(e.mac)
  }

  /** A shape is valid if the interface pointer selects the TAP and the namespace pointer a namespace. */
  lemma ShapesExactly(e: Entry)
    ensures ValidShape(e) <==>
              && ValidInterfaceName(e.tap) && e.cleanup != PreserveCallerNamespace && ValidMac(e.mac)
              && CanonicalDigest(e.namespace.digest) && CanonicalDigest(e.interface.digest)
              && e.interface.pointer == Ascii("/linux/netDevices/") + Escape(e.tap)
              && Ascii("/linux/namespaces/") <= e.namespace.pointer
  {
    assert DEVICES == Ascii("/linux/netDevices/") && NAMESPACES == Ascii("/linux/namespaces/");
  }

  /** The derived order: the first field in which two entries differ decides, in the order of declaration. */
  predicate EntryPrecedes(a: Entry, b: Entry) {
    if a.identity.namespace != b.identity.namespace then Precedes(a.identity.namespace, b.identity.namespace)
    else if a.identity.interface != b.identity.interface then Precedes(a.identity.interface, b.identity.interface)
    else if a.identity.cleanup != b.identity.cleanup then Precedes(a.identity.cleanup, b.identity.cleanup)
    else if a.tap != b.tap then Precedes(a.tap, b.tap)
    else if a.namespace.pointer != b.namespace.pointer then Precedes(a.namespace.pointer, b.namespace.pointer)
    else if a.namespace.digest != b.namespace.digest then Precedes(a.namespace.digest, b.namespace.digest)
    else if a.interface.pointer != b.interface.pointer then Precedes(a.interface.pointer, b.interface.pointer)
    else if a.interface.digest != b.interface.digest then Precedes(a.interface.digest, b.interface.digest)
    else if a.cleanup != b.cleanup then a.cleanup.ReleaseRuntimeNamespace?
    else Precedes(a.mac, b.mac)
  }

  lemma FieldsOrder(a: Entry, b: Entry)
    ensures LessList(Fields(a), Fields(b)) <==> EntryPrecedes(a, b)
  {
    var x, y := Fields(a), Fields(b);
    if a.identity.namespace != b.identity.namespace {
      FirstDifference(x, y, 0);
    } else if a.identity.interface != b.identity.interface {
      FirstDifference(x, y, 1);
    } else if a.identity.cleanup != b.identity.cleanup {
      FirstDifference(x, y, 2);
    } else if a.tap != b.tap {
      FirstDifference(x, y, 3);
    } else if a.namespace.pointer != b.namespace.pointer {
      FirstDifference(x, y, 4);
    } else if a.namespace.digest != b.namespace.digest {
      FirstDifference(x, y, 5);
    } else if a.interface.pointer != b.interface.pointer {
      FirstDifference(x, y, 6);
    } else if a.interface.digest != b.interface.digest {
      FirstDifference(x, y, 7);
    } else if a.cleanup != b.cleanup {
      FlagsOrder();
      FirstDifference(x, y, 8);
    } else if a.mac != b.mac {
      FirstDifference(x, y, 9);
    } else {
      LessListIsStrict(x);
    }
  }

  /** Each entry precedes all later ones. */
  predicate Ordered(network: seq<Entry>) {
    forall i, j :: 0 <= i < j < |network| ==> EntryPrecedes(network[i], network[j])
  }

  lemma OrderedIsRising(network: seq<Entry>)
    ensures Ordered(network) <==> Rising(Mapped(Fields, network))
  {
    var lists := Mapped(Fields, network);
    forall i, j | 0 <= i < j < |network| ensures LessList(lists[i], lists[j]) <==> EntryPrecedes(network[i], network[j]) {
      FieldsOrder(network[i], network[j]);
    }
  }

  /** So no entry occurs twice. */
  lemma OrderedMeansDistinct(network: seq<Entry>, i: nat, j: nat)
    requires Ordered(network) && i < j < |network|
    ensures network[i] != network[j]
  {
    FieldsOrder(network[i], network[j]);
    LessListIsStrict(Fields(network[i]));
  }

  /** No two entries share a TAP name or a MAC address. */
  predicate Unshared(network: seq<Entry>) {
    Distinct(Mapped(TapOf, network)) && Distinct(Mapped(MacOf, network))
  }

  function TapOf(e: Entry): Text { e.tap }

  function MacOf(e: Entry): Text { e.mac }

  /** The entry's MAC is the one its evidence derives. */
  predicate Bound(hash: Text -> Text, attachmentDigest: Text, e: Entry) {
    && |hash(MacInput(Evidence(attachmentDigest, e.identity, e.tap)))| >= 6
    && e.mac == DerivedMac(hash(MacInput(Evidence(attachmentDigest, e.identity, e.tap))))
  }

  predicate Header(m: Manifest) {
    && !m.schema.Unknown? && m.generation.Some? && m.generation.value != 0
    && SHARE_ROOT + [47] <= m.bundle && CanonicalDigest(m.configDigest) && CanonicalDigest(m.attachmentDigest)
    && |m.network| <= MAX_NETWORK && |m.storage| <= MAX_STORAGE && (m.network != [] || m.storage != [])
    && (m.schema.V1? ==> m.storage == [] && m.network != []) && (m.schema.V2? ==> m.storage != [])
  }

  /** Version 1 is for networks alone, version 2 needs storage; at most 256 and 128 entries. */
  lemma HeadersExactly(m: Manifest)
    ensures Header(m) <==>
              && m.generation.Some? && m.generation.value >= 1 && Ascii("/run/a3s-oci-runtime/") <= m.bundle
              && CanonicalDigest(m.configDigest) && CanonicalDigest(m.attachmentDigest)
              && match m.schema
                 case V1 => 1 <= |m.network| <= 256 && |m.storage| == 0
                 case V2 => |m.network| <= 256 && 1 <= |m.storage| <= 128
                 case Unknown => false
  {
    ShareText();
  }

  method ValidateHeader(m: Manifest) returns (ok: bool)
    ensures ok <==> Header(m)
  {
    if m.schema.Unknown? { return false; }
    if m.generation.None? || m.generation.value == 0 { return false; }
    if !(SHARE_ROOT + [47] <= m.bundle) { return false; }
    if !CanonicalDigest(m.configDigest) || !CanonicalDigest(m.attachmentDigest) { return false; }
    if |m.network| > MAX_NETWORK || |m.storage| > MAX_STORAGE { return false; }
    if m.network == [] && m.storage == [] { return false; }
    if m.schema.V1? && (m.storage != [] || m.network == []) { return false; }
    if m.schema.V2? && m.storage == [] { return false; }
    return true;
  }

  predicate Sound(hash: Text -> Text, attachmentDigest: Text, e: Entry) {
    ValidShape(e) && Bound(hash, attachmentDigest, e)
  }

  method CheckEntry(hash: Text -> Text, attachmentDigest: Text, e: Entry) returns (ok: bool)
    requires (forall text :: |hash(text)| == 32) && CanonicalDigest(attachmentDigest)
    ensures ok <==> Sound(hash, attachmentDigest, e)
  {
    if !ValidShape(e) { return false; }
    var mac := DeriveMac(hash, attachmentDigest, e.identity, e.tap);
    return mac == Some(e.mac);
  }

  /** Each entry on its own: its shape and its MAC. */
  method CheckEntries(hash: Text -> Text, attachmentDigest: Text, network: seq<Entry>) returns (sound: seq<bool>)
    requires (forall text :: |hash(text)| == 32) && CanonicalDigest(attachmentDigest)
    ensures |sound| == |network| && forall i :: 0 <= i < |network| ==> sound[i] == Sound(hash, attachmentDigest, network[i])
  {
    sound := [];
    for i := 0 to |network|
      invariant |sound| == i && forall k :: 0 <= k < i ==> sound[k] == Sound(hash, attachmentDigest, network[k])
    {
      var ok := CheckEntry(hash, attachmentDigest, network[i]);
      sound := sound + [ok];
    }
  }

  predicate AllSound(hash: Text -> Text, attachmentDigest: Text, network: seq<Entry>) {
    forall i :: 0 <= i < |network| ==> Sound(hash, attachmentDigest, network[i])
  }

  /**
   A manifest is accepted exactly when its header is valid, network and storage entries are in strict
   order throughout, no two network entries share a TAP name or MAC, no two storage entries a mount,
   a host source, a serial or a block ID, and every MAC and block ID is derived from its evidence.
   The bundle of an accepted one, being a valid guest path, lies properly below the runtime share.
   */
  method ValidateManifest(hash: Text -> Text, hexDigest: Text -> Text, m: Manifest) returns (ok: bool)
    requires forall text :: |hash(text)| == 32
    ensures ok <==> Header(m) && Ordered(m.network) && Storage.Ordered(m.storage)
                    && Unshared(m.network) && AllSound(hash, m.attachmentDigest, m.network)
                    && Storage.Unshared(m.storage) && Storage.AllSound(hexDigest, m.attachmentDigest, m.storage)
    ensures ok && ValidGuestPath(m.bundle) ==> BelowShare(m.bundle)
  {
    ok := ValidateHeader(m);
    if !ok { return; }
    if ValidGuestPath(m.bundle) { BundleIsBelowShare(m.bundle); }
    OrderedIsRising(m.network);
    ok := AllRise(Mapped(Fields, m.network));
    if !ok { return; }
    Storage.OrderedIsRising(m.storage);
    ok := AllRise(Mapped(Storage.Fields, m.storage));
    if !ok { return; }
    var sound := CheckEntries(hash, m.attachmentDigest, m.network);
    if exists i :: 0 <= i < |sound| && !sound[i] { return false; }
    ok := AllDistinct(Mapped(TapOf, m.network));
    if !ok { return; }
    ok := AllDistinct(Mapped(MacOf, m.network));
    if !ok { return; }
    ok := Storage.CheckStorage(hexDigest, m.attachmentDigest, m.storage);
  }
}
