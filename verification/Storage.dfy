/**
 The raw storage entries of an attachment manifest (crates/agent-protocol/src/vm_attachment/storage.rs).
 The hash, as hexadecimal text, is a parameter.
 */
module Storage {
  import opened Bytes
  import opened Texts
  import opened Framing
  import opened Paths

  const SERIAL_BYTES: nat := 20

  datatype AccessMode = ReadOnly | ReadWrite

  datatype Source = Source(device: u64, rawDevice: u64, inode: u64, size: u64)

  /** Ownership and cleanup have one value each and are left implicit. */
  datatype Entry = Entry(
    identity: Text, mount: Attachment, accessMode: AccessMode, hostSource: Text, source: Source, blockId: Text)

  // ---------------------------------------------------------------- serials

  /** The three numbers in decimal, one behind the other. */
  function Digits(source: Source): Text {
    Decimal(source.device) + Decimal(source.rawDevice) + Decimal(source.inode)
  }

  /** They are cut off at 20 characters, and never empty. */
  function Serial(source: Source): (serial: Text)
    ensures 0 < |serial| <= SERIAL_BYTES
  {
    if |Digits(source)| > SERIAL_BYTES then Digits(source)[..SERIAL_BYTES] else Digits(source)
  }

  /** The same three numbers; the size has no part in a serial. */
  predicate SameFile(a: Source, b: Source) {
    a.device == b.device && a.rawDevice == b.rawDevice && a.inode == b.inode
  }

  /** Each of the three numbers has as many digits. */
  predicate SameShape(a: Source, b: Source) {
    && |Decimal(a.device)| == |Decimal(b.device)| && |Decimal(a.rawDevice)| == |Decimal(b.rawDevice)|
    && |Decimal(a.inode)| == |Decimal(b.inode)|
  }

  lemma DecimalIsInjective(m: nat, n: nat)
    requires Decimal(m) == Decimal(n)
    ensures m == n
  {
    DecimalRoundTrip(m);
    DecimalRoundTrip(n);
  }

  /** Where device and raw device have as many digits and nothing is cut off, a serial tells files apart. */
  lemma SerialTellsApart(a: Source, b: Source)
    requires |Decimal(a.device)| == |Decimal(b.device)| && |Decimal(a.rawDevice)| == |Decimal(b.rawDevice)|
    requires |Digits(a)| <= SERIAL_BYTES && |Digits(b)| <= SERIAL_BYTES
    ensures Serial(a) == Serial(b) <==> SameFile(a, b)
  {
    if Serial(a) == Serial(b) {
      var d := |Decimal(a.device)|;
      var r := d + |Decimal(a.rawDevice)|;
      assert Digits(a)[..d] == Decimal(a.device) && Digits(b)[..d] == Decimal(b.device);
      assert Digits(a)[d..r] == Decimal(a.rawDevice) && Digits(b)[d..r] == Decimal(b.rawDevice);
      assert Digits(a)[r..] == Decimal(a.inode) && Digits(b)[r..] == Decimal(b.inode);
      DecimalIsInjective(a.device, b.device);
      DecimalIsInjective(a.rawDevice, b.rawDevice);
      DecimalIsInjective(a.inode, b.inode);
    }
  }

  /** Once device and raw device fill the serial, all inodes there share it. */
  lemma InodeCutOff(device: u64, rawDevice: u64, inode: u64, other: u64, size: u64)
    requires |Decimal(device)| + |Decimal(rawDevice)| >= SERIAL_BYTES
    ensures Serial(Source(device, rawDevice, inode, size)) == Serial(Source(device, rawDevice, other, size))
  {
    var front := Decimal(device) + Decimal(rawDevice);
    assert (front + Decimal(inode))[..SERIAL_BYTES] == front[..SERIAL_BYTES];
    assert (front + Decimal(other))[..SERIAL_BYTES] == front[..SERIAL_BYTES];
  }

  /** Another last digit, never making a number zero or too large. */
  function Neighbour(n: nat): (m: nat)
    requires n != 0
    ensures m != 0 && m != n && m / 10 == n / 10 && (n < U64_LIMIT ==> m < U64_LIMIT)
  {
    if n % 10 > 1 || (n % 10 == 1 && n > 10) then n - 1 else n + 1
  }

  lemma NeighbourDigits(n: nat)
    requires n != 0
    ensures |Decimal(Neighbour(n))| == |Decimal(n)|
    ensures Decimal(Neighbour(n))[..|Decimal(n)| - 1] == Decimal(n)[..|Decimal(n)| - 1]
  {
    var m := Neighbour(n);
    if n >= 10 {
      assert Decimal(n)[..|Decimal(n)| - 1] == Decimal(n / 10);
      assert Decimal(m)[..|Decimal(m)| - 1] == Decimal(m / 10);
    }
  }

  lemma CutSlice(front: Text, a: Text, b: Text)
    requires |front| + |a| > SERIAL_BYTES && |a| == |b| > 0 && a[..|a| - 1] == b[..|b| - 1]
    ensures (front + a)[..SERIAL_BYTES] == (front + b)[..SERIAL_BYTES]
  {
    var x, y := (front + a)[..SERIAL_BYTES], (front + b)[..SERIAL_BYTES];
    forall i | 0 <= i < SERIAL_BYTES ensures x[i] == y[i] {
      if i >= |front| { assert a[..|a| - 1][i - |front|] == b[..|b| - 1][i - |front|]; }
    }
  }

  /** With more than 20 digits the file with the next inode number has the same serial. */
  lemma CutOffCollides(source: Source)
    requires source.inode != 0 && |Digits(source)| > SERIAL_BYTES
    ensures var other := source.(inode := Neighbour(source.inode));
            SameShape(source, other) && !SameFile(source, other) && Serial(source) == Serial(other)
  {
    NeighbourDigits(source.inode);
    CutSlice(Decimal(source.device) + Decimal(source.rawDevice), Decimal(source.inode), Decimal(Neighbour(source.inode)));
  }

  /**
   A file can be taken for another of the same shape by its serial exactly when its three numbers have
   more than 20 digits together.
   */
  lemma SerialExactness(source: Source)
    requires source.inode != 0
    ensures (exists other: Source :: SameShape(source, other) && !SameFile(source, other) && Serial(source) == Serial(other))
            <==> |Digits(source)| > SERIAL_BYTES
  {
    if |Digits(source)| > SERIAL_BYTES {
      CutOffCollides(source);
      assert SameShape(source, source.(inode := Neighbour(source.inode)));
    } else {
      forall other: Source | SameShape(source, other) && Serial(source) == Serial(other) ensures SameFile(source, other) {
        SerialTellsApart(source, other);
      }
    }
  }

  /** Files of different shapes collide besides, because nothing separates the numbers. */
  lemma SerialsCollide(inode: u64, size: u64)
    ensures Serial(Source(1, 23, inode, size)) == Serial(Source(12, 3, inode, size))
  {
    assert Decimal(1) == [49] && Decimal(12) == [49, 50];
    assert Decimal(2) == [50] && Decimal(23) == [50, 51] && Decimal(3) == [51];
    assert [49] + [50, 51] == [49, 50] + [51];
  }

  predicate ValidSource(source: Source) {
    source.inode != 0 && source.size != 0 && source.size % 512 == 0
  }

  // ---------------------------------------------------------------- mounts

  // "/mounts/"
  const MOUNTS: Text := [47, 109, 111, 117, 110, 116, 115, 47]

  /** The index of the mount a pointer selects. */
  function MountIndex(pointer: Text): Option<int> {
    if !(MOUNTS <= pointer) || !CanonicalDecimal(pointer[|MOUNTS|..]) || FromDecimal(pointer[|MOUNTS|..]) >= U64_LIMIT
    then None
    else Some(FromDecimal(pointer[|MOUNTS|..]))
  }

  /** A pointer selects mount `n` exactly if it is "/mounts/" and the decimal form of `n`. */
  lemma MountIndexExactly(pointer: Text, n: nat)
    ensures MountIndex(pointer) == Some(n) <==> pointer == Ascii("/mounts/") + Decimal(n) && n < U64_LIMIT
  {
    assert MOUNTS == Ascii("/mounts/");
    if MOUNTS <= pointer {
      var digits := pointer[|MOUNTS|..];
      assert pointer == MOUNTS + digits;
      if CanonicalDecimal(digits) { CanonicalRoundTrip(digits); }
    }
    if pointer == MOUNTS + Decimal(n) {
      assert pointer[|MOUNTS|..] == Decimal(n);
      DecimalIsCanonical(n);
      DecimalRoundTrip(n);
    }
  }

  lemma {:induction false} DecimalIsCanonical(n: nat)
    ensures CanonicalDecimal(Decimal(n)) && (n > 0 ==> Decimal(n)[0] != 48)
  {
    if n >= 10 { DecimalIsCanonical(n / 10); }
  }

  /** Pointers that select the same mount are the same pointer. */
  lemma MountIndexIsInjective(pointer: Text, other: Text)
    requires MountIndex(pointer).Some? && MountIndex(pointer) == MountIndex(other)
    ensures pointer == other
  {
    CanonicalRoundTrip(pointer[|MOUNTS|..]);
    CanonicalRoundTrip(other[|MOUNTS|..]);
    assert pointer == MOUNTS + pointer[|MOUNTS|..] && other == MOUNTS + other[|MOUNTS|..];
  }

  // ---------------------------------------------------------------- block IDs

  // "a3s.oci.agent-vm-storage-block-id.v1" and a zero byte
  const BLOCK_DOMAIN: Text := [97, 51, 115, 46, 111, 99, 105, 46, 97, 103, 101, 110, 116, 45, 118, 109, 45, 115, 116, 111,
                               114, 97, 103, 101, 45, 98, 108, 111, 99, 107, 45, 105, 100, 46, 118, 49, 0]

  function BlockInput(attachmentDigest: Text, identity: Text): Text {
    BLOCK_DOMAIN + Framed(LittleEndian8, [attachmentDigest, identity])
  }

  /** Block IDs of different allocations or contracts are hashed from different bytes. */
  lemma BlockInputIsInjective(d: Text, i: Text, e: Text, j: Text)
    requires Fits([d, i]) && Fits([e, j])
    ensures BlockInput(d, i) == BlockInput(e, j) <==> d == e && i == j
  {
    if BlockInput(d, i) == BlockInput(e, j) {
      var a, b := [d, i], [e, j];
      assert BlockInput(d, i)[|BLOCK_DOMAIN|..] == Framed(LittleEndian8, a);
      assert BlockInput(e, j)[|BLOCK_DOMAIN|..] == Framed(LittleEndian8, b);
      LittleEndian8IsHeader();
      FramedIsInjective(LittleEndian8, a, b);
      assert a[0] == b[0] && a[1] == b[1];
    }
  }

  /** What is hashed: the domain, then attachment digest and identity, each behind its length. */
  lemma BlockInputInOrder(d: Text, i: Text)
    requires Fits([d, i])
    ensures var input := BlockInput(d, i);
            && |input| >= 37 && input[..37] == Ascii("a3s.oci.agent-vm-storage-block-id.v1") + [0]
            && Unframed(FromLittleEndian, input[37..]) == Some([d, i])
  {
    HeadersAreRead();
    FramedReadsBack(FromLittleEndian, LittleEndian8, [d, i]);
    BlockDomainText();
    assert BlockInput(d, i)[37..] == Framed(LittleEndian8, [d, i]);
  }

  lemma BlockDomainText()
    ensures |BLOCK_DOMAIN| == 37 && BLOCK_DOMAIN == Ascii("a3s.oci.agent-vm-storage-block-id.v1") + [0]
  {
  }

  // "a3s-oci-storage-"
  const BLOCK_PREFIX: Text := [97, 51, 115, 45, 111, 99, 105, 45, 115, 116, 111, 114, 97, 103, 101, 45]

  /** The prefix and the first 32 characters of the digest in hexadecimal. */
  function BlockId(hexDigest: Text -> Text, attachmentDigest: Text, identity: Text): Text {
    var digest := hexDigest(BlockInput(attachmentDigest, identity));
    BLOCK_PREFIX + (if |digest| > 32 then digest[..32] else digest)
  }

  // ---------------------------------------------------------------- entries

  /** A normalized absolute path of a file. */
  predicate ValidHostSource(path: Text) {
    && 2 <= |path| <= MAX_GUEST_PATH_BYTES && path[0] == 47 && path[|path| - 1] != 47
    && 92 !in path && 0 !in path && AllPlain(Split(path)[1..])
  }

  /** A host source is a normalized absolute path below the root, of at most 4096 bytes without NUL or backslash. */
  lemma HostSourcesExactly(path: Text)
    ensures ValidHostSource(path) <==> IsNormal(path) && |path| <= 4096 && forall b <- path :: b != 0 && b != 92
  {
    NormalExactly(path);
  }

  /** A storage image has an inode and a positive number of 512-byte sectors. */
  lemma SourcesExactly(source: Source)
    ensures ValidSource(source) <==> source.inode >= 1 && exists sectors: nat :: sectors >= 1 && source.size == 512 * sectors
  {
    if ValidSource(source) { assert source.size == 512 * (source.size / 512); }
  }

  predicate Sound(hexDigest: Text -> Text, attachmentDigest: Text, e: Entry) {
    && CanonicalDigest(e.mount.digest) && ValidHostSource(e.hostSource) && ValidSource(e.source)
    && MountIndex(e.mount.pointer).Some? && e.blockId == BlockId(hexDigest, attachmentDigest, e.identity)
  }

  /**
   An entry is sound if its digest is canonical, its source is a normalized path to a sector-aligned file,
   its pointer is "/mounts/" and a number, and its block ID is the prefix and the first 32 digits of the
   hash of its evidence.
   */
  lemma SoundExactly(hexDigest: Text -> Text, attachmentDigest: Text, e: Entry)
    ensures Sound(hexDigest, attachmentDigest, e) <==>
              && CanonicalDigest(e.mount.digest) && ValidHostSource(e.hostSource) && ValidSource(e.source)
              && (exists n: nat :: n < U64_LIMIT && e.mount.pointer == Ascii("/mounts/") + Decimal(n))
              && var hex := hexDigest(BlockInput(attachmentDigest, e.identity));
                 e.blockId == Ascii("a3s-oci-storage-") + hex[..if |hex| < 32 then |hex| else 32]
  {
    assert BLOCK_PREFIX == Ascii("a3s-oci-storage-");
    MountSelected(e.mount.pointer);
  }

  lemma MountSelected(pointer: Text)
    ensures MountIndex(pointer).Some? <==> exists n: nat :: n < U64_LIMIT && pointer == Ascii("/mounts/") + Decimal(n)
  {
    if MountIndex(pointer).Some? {
      CanonicalRoundTrip(pointer[|MOUNTS|..]);
      MountIndexExactly(pointer, MountIndex(pointer).value);
    }
    if n: nat :| n < U64_LIMIT && pointer == Ascii("/mounts/") + Decimal(n) { MountIndexExactly(pointer, n); }
  }

  predicate AllSound(hexDigest: Text -> Text, attachmentDigest: Text, storage: seq<Entry>) {
    forall i :: 0 <= i < |storage| ==> Sound(hexDigest, attachmentDigest, storage[i])
  }

  /** The fields in the order the derived comparison takes them; numbers as eight bytes, most significant first. */
  function Fields(e: Entry): seq<Text> {
    [e.identity, e.mount.pointer, e.mount.digest, [if e.accessMode.ReadOnly? then 0 else 1], e.hostSource,
     BigEndian8(e.source.device), BigEndian8(e.source.rawDevice), BigEndian8(e.source.inode), BigEndian8(e.source.size),
     e.blockId]
  }

  /** The derived order: the first field in which two entries differ decides, numbers as numbers. */
  predicate EntryPrecedes(a: Entry, b: Entry) {
    if a.identity != b.identity then Precedes(a.identity, b.identity)
    else if a.mount.pointer != b.mount.pointer then Precedes(a.mount.pointer, b.mount.pointer)
    else if a.mount.digest != b.mount.digest then Precedes(a.mount.digest, b.mount.digest)
    else if a.accessMode != b.accessMode then a.accessMode.ReadOnly?
    else if a.hostSource != b.hostSource then Precedes(a.hostSource, b.hostSource)
    else if a.source.device != b.source.device then a.source.device < b.source.device
    else if a.source.rawDevice != b.source.rawDevice then a.source.rawDevice < b.source.rawDevice
    else if a.source.inode != b.source.inode then a.source.inode < b.source.inode
    else if a.source.size != b.source.size then a.source.size < b.source.size
    else Precedes(a.blockId, b.blockId)
  }

  lemma FieldsOrder(a: Entry, b: Entry)
    ensures LessList(Fields(a), Fields(b)) <==> EntryPrecedes(a, b)
  {
    var x, y := Fields(a), Fields(b);
    if a.identity != b.identity {
      FirstDifference(x, y, 0);
    } else if a.mount.pointer != b.mount.pointer {
      FirstDifference(x, y, 1);
    } else if a.mount.digest != b.mount.digest {
      FirstDifference(x, y, 2);
    } else if a.accessMode != b.accessMode {
      FlagsOrder();
      FirstDifference(x, y, 3);
    } else if a.hostSource != b.hostSource {
      FirstDifference(x, y, 4);
    } else if a.source.device != b.source.device {
      NumbersOrder(a.source.device, b.source.device);
      FirstDifference(x, y, 5);
    } else if a.source.rawDevice != b.source.rawDevice {
      NumbersOrder(a.source.rawDevice, b.source.rawDevice);
      FirstDifference(x, y, 6);
    } else if a.source.inode != b.source.inode {
      NumbersOrder(a.source.inode, b.source.inode);
      FirstDifference(x, y, 7);
    } else if a.source.size != b.source.size {
      NumbersOrder(a.source.size, b.source.size);
      FirstDifference(x, y, 8);
    } else if a.blockId != b.blockId {
      FirstDifference(x, y, 9);
    } else {
      LessListIsStrict(x);
    }
  }

  /** Each entry precedes all later ones. */
  predicate Ordered(storage: seq<Entry>) {
    forall i, j :: 0 <= i < j < |storage| ==> EntryPrecedes(storage[i], storage[j])
  }

  lemma OrderedIsRising(storage: seq<Entry>)
    ensures Ordered(storage) <==> Rising(Mapped(Fields, storage))
  {
    var lists := Mapped(Fields, storage);
    forall i, j | 0 <= i < j < |storage| ensures LessList(lists[i], lists[j]) <==> EntryPrecedes(storage[i], storage[j]) {
      FieldsOrder(storage[i], storage[j]);
    }
  }

  function MountOf(e: Entry): Attachment { e.mount }

  function SourceOf(e: Entry): Text { e.hostSource }

  function SerialOf(e: Entry): Text { Serial(e.source) }

  function BlockIdOf(e: Entry): Text { e.blockId }

  /** No two entries share a mount, a host source, a serial or a block ID. */
  predicate Unshared(storage: seq<Entry>) {
    && Distinct(Mapped(MountOf, storage)) && Distinct(Mapped(SourceOf, storage))
    && Distinct(Mapped(SerialOf, storage)) && Distinct(Mapped(BlockIdOf, storage))
  }

  /**
   A mount is compared with its digest: two entries may select one mount, but then they expect
   different values there, so at most one of them can hold of a configuration.
   */
  lemma SharedMountDisagrees(storage: seq<Entry>, i: nat, j: nat)
    requires Unshared(storage) && i < j < |storage|
    requires MountIndex(storage[i].mount.pointer).Some?
    requires MountIndex(storage[i].mount.pointer) == MountIndex(storage[j].mount.pointer)
    ensures storage[i].mount.digest != storage[j].mount.digest
  {
    MountIndexIsInjective(storage[i].mount.pointer, storage[j].mount.pointer);
    assert Mapped(MountOf, storage)[i] != Mapped(MountOf, storage)[j];
  }

  /** The pass over the storage entries: each on its own, then the four sets. */
  method CheckStorage(hexDigest: Text -> Text, attachmentDigest: Text, storage: seq<Entry>) returns (ok: bool)
    ensures ok <==> Unshared(storage) && AllSound(hexDigest, attachmentDigest, storage)
  {
    for i := 0 to |storage|
      invariant forall k :: 0 <= k < i ==> Sound(hexDigest, attachmentDigest, storage[k])
    {
      if !Sound(hexDigest, attachmentDigest, storage[i]) { return false; }
    }
    ok := AllDistinct(Mapped(MountOf, storage));
    if !ok { return; }
    ok := AllDistinct(Mapped(SourceOf, storage));
    if !ok { return; }
    ok := AllDistinct(Mapped(SerialOf, storage));
    if !ok { return; }
    ok := AllDistinct(Mapped(BlockIdOf, storage));
  }
}
