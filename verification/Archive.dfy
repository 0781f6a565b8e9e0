/** Unpacking the pinned runtime archive at build time (crates/krun/build.rs). */
module Archive {
  import opened Bytes
  import opened Texts

  /** One archive entry: whether it can be read and written out, and whether its path is UTF-8 of one component. */
  datatype Entry = Entry(readable: bool, regular: bool, safe: bool, name: Text, content: Text, writable: bool)

  datatype Outcome =
    | Complete | Unreadable | NotAFile | UnsafePath | Unexpected | Duplicate | WriteFailed | Incomplete
    | WrongArchive | NotRemovable | WrongContent

  function NameOf(entry: Entry): Text { entry.name }

  function Names(entries: seq<Entry>): seq<Text> { Mapped(NameOf, entries) }

  predicate Fine(entry: Entry) { entry.readable && entry.regular && entry.safe && entry.writable }

  predicate AllFine(entries: seq<Entry>) {
    forall i :: 0 <= i < |entries| ==> Fine(entries[i])
  }

  /** The pinned names that are marked as seen. */
  function Marked(pinned: seq<Text>, seen: seq<bool>): (r: seq<Text>)
    requires |pinned| == |seen|
    ensures |r| <= |pinned|
  {
    if pinned == [] then []
    else
      var last := |pinned| - 1;
      Marked(pinned[..last], seen[..last]) + (if seen[last] then [pinned[last]] else [])
  }

  lemma {:induction false} MarkOneMore(pinned: seq<Text>, seen: seq<bool>, j: nat)
    requires |pinned| == |seen| && j < |pinned| && !seen[j]
    ensures multiset(Marked(pinned, seen[j := true])) == multiset(Marked(pinned, seen)) + multiset{pinned[j]}
  {
    var last := |pinned| - 1;
    if j < last {
      MarkOneMore(pinned[..last], seen[..last], j);
      assert seen[j := true][..last] == seen[..last][j := true];
    } else {
      assert seen[j := true][..last] == seen[..last];
    }
  }

  lemma {:induction false} NoneMarked(pinned: seq<Text>, seen: seq<bool>)
    requires |pinned| == |seen| && forall j :: 0 <= j < |seen| ==> !seen[j]
    ensures Marked(pinned, seen) == []
  {
    if pinned != [] { NoneMarked(pinned[..|pinned| - 1], seen[..|pinned| - 1]); }
  }

  lemma {:induction false} AllMarked(pinned: seq<Text>, seen: seq<bool>)
    requires |pinned| == |seen| && forall j :: 0 <= j < |seen| ==> seen[j]
    ensures Marked(pinned, seen) == pinned
  {
    if pinned != [] { AllMarked(pinned[..|pinned| - 1], seen[..|pinned| - 1]); }
  }

  lemma {:induction false} SomeUnmarked(pinned: seq<Text>, seen: seq<bool>, j: nat)
    requires |pinned| == |seen| && j < |pinned| && !seen[j]
    ensures |Marked(pinned, seen)| < |pinned|
  {
    if j < |pinned| - 1 { SomeUnmarked(pinned[..|pinned| - 1], seen[..|pinned| - 1], j); }
  }

  lemma {:induction false} MarkedIsIn(pinned: seq<Text>, seen: seq<bool>, j: nat)
    requires |pinned| == |seen| && j < |pinned| && seen[j]
    ensures pinned[j] in Marked(pinned, seen)
  {
    if j < |pinned| - 1 { MarkedIsIn(pinned[..|pinned| - 1], seen[..|pinned| - 1], j); }
  }

  lemma {:induction false} DistinctOccursOnce(names: seq<Text>, name: Text)
    requires Distinct(names)
    ensures multiset(names)[name] <= 1
  {
    if names != [] {
      var front, last := names[..|names| - 1], names[|names| - 1];
      DistinctOccursOnce(front, name);
      assert names == front + [last];
      if name == last { assert name !in front; }
    }
  }

  /** A name that occurs before and at a position occurs twice. */
  lemma OccursTwice(names: seq<Text>, i: nat)
    requires i < |names| && names[i] in names[..i]
    ensures multiset(names)[names[i]] >= 2
  {
    assert names == names[..i] + [names[i]] + names[i + 1..];
    assert names[i] in multiset(names[..i]);
  }

  /** The first pinned file of that name. */
  method Position(pinned: seq<Text>, name: Text) returns (index: Option<nat>)
    ensures index.None? <==> name !in pinned
    ensures index.Some? ==> index.value < |pinned| && pinned[index.value] == name && IsFirst(pinned, index.value)
  {
    for i := 0 to |pinned|
      invariant forall k :: 0 <= k < i ==> pinned[k] != name
    {
      if pinned[i] == name { return Some(i); }
    }
    return None;
  }

  predicate IsFirst(names: seq<Text>, j: nat)
    requires j < |names|
  {
    forall i :: 0 <= i < j ==> names[i] != names[j]
  }

  /** `unpacked` is what the marks say, and marks stand at first occurrences. */
  ghost predicate Tally(pinned: seq<Text>, seen: seq<bool>, unpacked: seq<Text>) {
    && |pinned| == |seen| && multiset(unpacked) == multiset(Marked(pinned, seen)) && Distinct(unpacked)
    && forall j :: 0 <= j < |pinned| && seen[j] ==> IsFirst(pinned, j)
  }

  lemma {:induction false} MarkedFrom(pinned: seq<Text>, seen: seq<bool>, name: Text) returns (j: nat)
    requires |pinned| == |seen| && name in Marked(pinned, seen)
    ensures j < |pinned| && seen[j] && pinned[j] == name
  {
    j := |pinned| - 1;
    if !(seen[j] && pinned[j] == name) { j := MarkedFrom(pinned[..j], seen[..j], name); }
  }

  /** A first occurrence is marked exactly when its name is unpacked. */
  lemma MarkedIffUnpacked(pinned: seq<Text>, seen: seq<bool>, unpacked: seq<Text>, j: nat)
    requires Tally(pinned, seen, unpacked) && j < |pinned| && IsFirst(pinned, j)
    ensures seen[j] <==> pinned[j] in unpacked
  {
    if seen[j] {
      MarkedIsIn(pinned, seen, j);
      assert pinned[j] in multiset(unpacked);
    } else if pinned[j] in unpacked {
      assert pinned[j] in multiset(Marked(pinned, seen));
      var k := MarkedFrom(pinned, seen, pinned[j]);
    }
  }

  lemma TallyOneMore(pinned: seq<Text>, seen: seq<bool>, unpacked: seq<Text>, j: nat)
    requires Tally(pinned, seen, unpacked) && j < |pinned| && !seen[j] && IsFirst(pinned, j)
    ensures Tally(pinned, seen[j := true], unpacked + [pinned[j]])
  {
    MarkedIffUnpacked(pinned, seen, unpacked, j);
    MarkOneMore(pinned, seen, j);
  }

  lemma NothingYet(pinned: seq<Text>, seen: seq<bool>)
    requires |pinned| == |seen| && forall j :: 0 <= j < |seen| ==> !seen[j]
    ensures Tally(pinned, seen, [])
  {
    NoneMarked(pinned, seen);
  }

  /** One entry: it is unpacked and marked, or refused. */
  method UnpackOne(pinned: seq<Text>, entry: Entry, seen: seq<bool>, ghost unpacked: seq<Text>)
    returns (refusal: Option<Outcome>, marked: seq<bool>)
    requires Tally(pinned, seen, unpacked)
    ensures refusal.None? <==> Fine(entry) && entry.name in pinned && entry.name !in unpacked
    ensures refusal.Some? ==> marked == seen && !refusal.value.Complete? && !refusal.value.Incomplete?
    ensures refusal.Some? ==> !refusal.value.NotRemovable? && !refusal.value.WrongArchive?
    ensures refusal.None? ==> Tally(pinned, marked, unpacked + [entry.name])
  {
    marked := seen;
    if !entry.readable { return Some(Unreadable), marked; }
    if !entry.regular { return Some(NotAFile), marked; }
    if !entry.safe { return Some(UnsafePath), marked; }
    var index := Position(pinned, entry.name);
    if index.None? { return Some(Unexpected), marked; }
    var j := index.value;
    MarkedIffUnpacked(pinned, seen, unpacked, j);
    if seen[j] { return Some(Duplicate), marked; }
    if !entry.writable { return Some(WriteFailed), marked; }
    TallyOneMore(pinned, seen, unpacked, j);
    return None, seen[j := true];
  }

  /** The extraction loop: it stops at the first entry that is not a fresh pinned file. */
  method Unpack(pinned: seq<Text>, entries: seq<Entry>) returns (r: Outcome, unpacked: seq<Text>, seen: seq<bool>)
    ensures Tally(pinned, seen, unpacked) && |unpacked| <= |entries|
    ensures !r.Incomplete? && !r.NotRemovable? && !r.WrongArchive?
    ensures forall k :: 0 <= k < |unpacked| ==> Fine(entries[k]) && unpacked[k] == entries[k].name && unpacked[k] in pinned
    ensures r.Complete? ==> |unpacked| == |entries|
    ensures !r.Complete? ==>
              |unpacked| < |entries| && var entry := entries[|unpacked|];
              !Fine(entry) || entry.name !in pinned || entry.name in unpacked
  {
    seen, unpacked := seq(|pinned|, _ => false), [];
    NothingYet(pinned, seen);
    for i := 0 to |entries|
      invariant |unpacked| == i && Tally(pinned, seen, unpacked)
      invariant forall k :: 0 <= k < i ==> Fine(entries[k]) && unpacked[k] == entries[k].name && unpacked[k] in pinned
    {
      var refusal, marked := UnpackOne(pinned, entries[i], seen, unpacked);
      if refusal.Some? { return refusal.value, unpacked, seen; }
      unpacked, seen := unpacked + [entries[i].name], marked;
    }
    return Complete, unpacked, seen;
  }

  lemma StoppedThere(pinned: seq<Text>, entries: seq<Entry>, unpacked: seq<Text>)
    requires |unpacked| <= |entries| && unpacked == Names(entries)[..|unpacked|] && Distinct(unpacked)
    requires forall k :: 0 <= k < |unpacked| ==> Fine(entries[k]) && unpacked[k] in pinned
    requires |unpacked| < |entries| ==>
               var entry := entries[|unpacked|]; !Fine(entry) || entry.name !in pinned || entry.name in unpacked
    ensures StopsAt(pinned, entries, |unpacked|)
  {
    forall k | 0 <= k <= |unpacked| ensures Names(entries[..k]) == unpacked[..k] {
    }
    assert unpacked[..|unpacked|] == unpacked;
    forall k | 0 <= k < |unpacked| ensures Fresh(pinned, entries, k) {
      assert Names(entries[..k]) == unpacked[..k];
      assert unpacked[k] !in unpacked[..k];
    }
  }

  /** An entry that stops the loop rules out a permutation of distinct names. */
  lemma StoppedMeansUnlike(pinned: seq<Text>, entries: seq<Entry>, n: nat)
    requires n < |entries| && AllFine(entries) && Distinct(pinned)
    requires entries[n].name !in pinned || entries[n].name in Names(entries)[..n]
    ensures multiset(Names(entries)) != multiset(pinned)
  {
    var names := Names(entries);
    assert names[n] in multiset(names);
    DistinctOccursOnce(pinned, names[n]);
    if names[n] in names[..n] { OccursTwice(names, n); }
  }

  lemma AllSeen(pinned: seq<Text>, seen: seq<bool>, unpacked: seq<Text>)
    requires Tally(pinned, seen, unpacked) && forall j :: 0 <= j < |pinned| ==> seen[j]
    ensures multiset(unpacked) == multiset(pinned) && Distinct(pinned)
  {
    AllMarked(pinned, seen);
    forall i, j | 0 <= i < j < |pinned| ensures pinned[i] != pinned[j] { assert IsFirst(pinned, j); }
  }

  lemma OneMissing(pinned: seq<Text>, seen: seq<bool>, unpacked: seq<Text>, j: nat)
    requires Tally(pinned, seen, unpacked) && j < |pinned| && !seen[j]
    ensures multiset(unpacked) != multiset(pinned)
  {
    SomeUnmarked(pinned, seen, j);
    var marked := Marked(pinned, seen);
    assert |multiset(pinned)| == |pinned| && |multiset(marked)| == |marked|;
  }

  /**
   The loop and its completeness check. It succeeds exactly when every entry is a readable regular
   file with a safe path that can be written out, and the entry names are a permutation of the pinned
   names, which are then distinct. `unpacked` is what was written, in order: on success each pinned
   file exactly once.
   */
  method Extract(pinned: seq<Text>, entries: seq<Entry>) returns (r: Outcome, unpacked: seq<Text>)
    ensures r.Complete? <==> AllFine(entries) && multiset(Names(entries)) == multiset(pinned) && Distinct(pinned)
    ensures r.Complete? ==> unpacked == Names(entries)
    ensures unpacked <= Names(entries) && Distinct(unpacked) && forall k :: 0 <= k < |unpacked| ==> unpacked[k] in pinned
    ensures StopsAt(pinned, entries, |unpacked|) && !r.NotRemovable? && !r.WrongArchive?
  {
    var seen;
    r, unpacked, seen := Unpack(pinned, entries);
    assert unpacked == Names(entries)[..|unpacked|];
    StoppedThere(pinned, entries, unpacked);
    if !r.Complete? {
      if AllFine(entries) && Distinct(pinned) { StoppedMeansUnlike(pinned, entries, |unpacked|); }
      return;
    }
    assert unpacked == Names(entries) && AllFine(entries);
    for j := 0 to |pinned|
      invariant forall k :: 0 <= k < j ==> seen[k]
    {
      if !seen[j] {
        OneMissing(pinned, seen, unpacked, j);
        return Incomplete, unpacked;
      }
    }
    AllSeen(pinned, seen, unpacked);
  }

  // ---------------------------------------------------------------- the whole installation

  datatype PinnedFile = PinnedFile(name: Text, size: nat, digest: Text)

  type Folder = map<Text, Text>

  function PinnedName(file: PinnedFile): Text { file.name }

  predicate Matches(hash: Text -> Text, folder: Folder, file: PinnedFile) {
    file.name in folder && |folder[file.name]| == file.size && hash(folder[file.name]) == file.digest
  }

  predicate AllMatch(hash: Text -> Text, folder: Folder, files: seq<PinnedFile>) {
    forall j :: 0 <= j < |files| ==> Matches(hash, folder, files[j])
  }

  /** The folder after the first entries are written into it. */
  function WrittenOut(folder: Folder, entries: seq<Entry>): Folder {
    if entries == [] then folder
    else WrittenOut(folder, entries[..|entries| - 1])[entries[|entries| - 1].name := entries[|entries| - 1].content]
  }

  lemma {:induction false} WrittenOnce(folder: Folder, entries: seq<Entry>, i: nat)
    requires Distinct(Names(entries)) && i < |entries|
    ensures entries[i].name in WrittenOut(folder, entries) && WrittenOut(folder, entries)[entries[i].name] == entries[i].content
  {
    var last := |entries| - 1;
    if i < last {
      var front := entries[..last];
      assert forall k :: 0 <= k < |front| ==> Names(front)[k] == Names(entries)[k];
      WrittenOnce(folder, front, i);
      assert Names(entries)[i] != Names(entries)[last];
    }
  }

  lemma {:induction false} OthersKept(folder: Folder, entries: seq<Entry>, name: Text)
    requires name !in Names(entries)
    ensures name in WrittenOut(folder, entries) <==> name in folder
    ensures name in folder ==> WrittenOut(folder, entries)[name] == folder[name]
  {
    if entries != [] {
      var last := |entries| - 1;
      var front := entries[..last];
      assert forall k :: 0 <= k < |front| ==> Names(front)[k] == Names(entries)[k];
      assert Names(entries)[last] in Names(entries);
      OthersKept(folder, front, name);
    }
  }

  /** Each pinned file is what its entry holds. */
  predicate ContentsMatch(hash: Text -> Text, entries: seq<Entry>, files: seq<PinnedFile>) {
    forall i, j :: 0 <= i < |entries| && 0 <= j < |files| && entries[i].name == files[j].name ==>
      |entries[i].content| == files[j].size && hash(entries[i].content) == files[j].digest
  }

  /** Every entry can be unpacked, there is one for each pinned file and no other, and it holds the right bytes. */
  predicate Supplies(hash: Text -> Text, entries: seq<Entry>, files: seq<PinnedFile>) {
    && AllFine(entries) && Distinct(Mapped(PinnedName, files)) && multiset(Names(entries)) == multiset(Mapped(PinnedName, files))
    && ContentsMatch(hash, entries, files)
  }

  /** After a complete extraction the folder matches exactly when the entries' contents do. */
  lemma MatchDecided(hash: Text -> Text, folder: Folder, entries: seq<Entry>, files: seq<PinnedFile>)
    requires Distinct(Names(entries)) && multiset(Names(entries)) == multiset(Mapped(PinnedName, files))
    ensures AllMatch(hash, WrittenOut(folder, entries), files) <==> ContentsMatch(hash, entries, files)
  {
    var written := WrittenOut(folder, entries);
    forall i, j | 0 <= i < |entries| && 0 <= j < |files| && entries[i].name == files[j].name
      ensures Matches(hash, written, files[j]) <==>
              |entries[i].content| == files[j].size && hash(entries[i].content) == files[j].digest
    {
      WrittenOnce(folder, entries, i);
    }
    if ContentsMatch(hash, entries, files) {
      forall j | 0 <= j < |files| ensures Matches(hash, written, files[j]) {
        assert Mapped(PinnedName, files)[j] in multiset(Names(entries));
        var i :| 0 <= i < |entries| && Names(entries)[i] == files[j].name;
        assert entries[i].name == files[j].name;
      }
    }
  }

  /** Old pinned files go first; `removable` of them can be removed. */
  method RemoveOld(folder: Folder, names: seq<Text>, removable: nat) returns (ok: bool, cleared: Folder)
    ensures ok <==> removable >= |names|
    // exactly the first names are gone, all of them if all can be removed
    ensures forall name :: name in cleared <==> name in folder && name !in names[..if ok then |names| else removable]
    ensures forall name :: name in cleared ==> cleared[name] == folder[name]
  {
    cleared := folder;
    for i := 0 to |names|
      invariant i <= removable
      invariant forall name :: name in cleared <==> name in folder && name !in names[..i]
      invariant forall name :: name in cleared ==> cleared[name] == folder[name]
    {
      if i == removable { return false, cleared; }
      assert names[..i + 1] == names[..i] + [names[i]];
      cleared := cleared - {names[i]};
    }
    return true, cleared;
  }

  /** Nothing keeps an entry from being unpacked after these. */
  predicate Fresh(pinned: seq<Text>, entries: seq<Entry>, k: nat)
    requires k < |entries|
  {
    Fine(entries[k]) && entries[k].name in pinned && entries[k].name !in Names(entries[..k])
  }

  /** The first `n` entries are unpacked, and no entry behind them can be. */
  ghost predicate StopsAt(pinned: seq<Text>, entries: seq<Entry>, n: nat) {
    && n <= |entries| && (forall k :: 0 <= k < n ==> Fresh(pinned, entries, k))
    && (n < |entries| ==> !Fresh(pinned, entries, n))
  }

  /** The folder holds, of the pinned files, exactly these entries, and what else it held. */
  ghost predicate HoldsOnly(after: Folder, folder: Folder, pinned: seq<Text>, entries: seq<Entry>) {
    && (forall name <- pinned :: name in after <==> name in Names(entries))
    && (forall k :: 0 <= k < |entries| ==> entries[k].name in after && after[entries[k].name] == entries[k].content)
    && (forall name :: name !in pinned ==>
          (name in after <==> name in folder) && (name in folder ==> after[name] == folder[name]))
  }

  /** Writing distinct pinned files into a folder cleared of the pinned names. */
  lemma OnlyWritten(folder: Folder, pinned: seq<Text>, cleared: Folder, written: seq<Entry>, unpacked: seq<Text>)
    requires unpacked == Names(written) && Distinct(unpacked) && forall k :: 0 <= k < |unpacked| ==> unpacked[k] in pinned
    requires forall name :: name in cleared <==> name in folder && name !in pinned
    requires forall name :: name in cleared ==> cleared[name] == folder[name]
    ensures HoldsOnly(WrittenOut(cleared, written), folder, pinned, written)
  {
    var after := WrittenOut(cleared, written);
    forall name: Text
      ensures name !in unpacked ==>
                (name in after <==> name in cleared) && (name in cleared ==> after[name] == cleared[name])
    {
      if name !in unpacked { OthersKept(cleared, written, name); }
    }
    forall k | 0 <= k < |written| ensures written[k].name in after && after[written[k].name] == written[k].content {
      WrittenOnce(cleared, written, k);
    }
    forall name | name in unpacked ensures name in after {
      var k :| 0 <= k < |unpacked| && unpacked[k] == name;
      WrittenOnce(cleared, written, k);
    }
  }

  /**
   The installation. It succeeds exactly when the archive is the pinned one and the folder matches
   already, or can be cleared and is then filled by a complete extraction of the right contents; the
   folder then matches the pinned files. Once cleared, the folder holds of the pinned files exactly the
   entries before the first that cannot be unpacked, whatever it held before. No other file in the folder
   is touched in any case.
   */
  method Install(hash: Text -> Text, pinnedArchive: bool, files: seq<PinnedFile>, entries: seq<Entry>, folder: Folder,
                 removable: nat)
    returns (r: Outcome, after: Folder)
    ensures r.Complete? ==> AllMatch(hash, after, files)
    ensures r.Complete? <==>
              pinnedArchive && (AllMatch(hash, folder, files) || (removable >= |files| && Supplies(hash, entries, files)))
    ensures forall name :: name !in Mapped(PinnedName, files) ==>
              (name in after <==> name in folder) && (name in folder ==> after[name] == folder[name])
    ensures r.WrongArchive? <==> !pinnedArchive
    ensures !pinnedArchive || AllMatch(hash, folder, files) ==> after == folder
    ensures r.NotRemovable? <==> pinnedArchive && !AllMatch(hash, folder, files) && removable < |files|
    ensures r.NotRemovable? ==>
              && (forall name :: name in after <==> name in folder && name !in Mapped(PinnedName, files)[..removable])
              && (forall name :: name in after ==> after[name] == folder[name])
    ensures pinnedArchive && !AllMatch(hash, folder, files) && removable >= |files| ==>
              exists n: nat :: StopsAt(Mapped(PinnedName, files), entries, n)
                          && HoldsOnly(after, folder, Mapped(PinnedName, files), entries[..n])
  {
    after := folder;
    if !pinnedArchive { return WrongArchive, after; }
    if AllMatch(hash, folder, files) { return Complete, after; }
    var names := Mapped(PinnedName, files);
    var ok, cleared := RemoveOld(folder, names, removable);
    after := cleared;
    if !ok { return NotRemovable, after; }
    var unpacked;
    r, unpacked := Extract(names, entries);
    var written := entries[..|unpacked|];
    after := WrittenOut(cleared, written);
    assert names[..|names|] == names;
    OnlyWritten(folder, names, cleared, written, unpacked);
    if !r.Complete? { return; }
    assert written == entries;
    MatchDecided(hash, cleared, entries, files);
    if !AllMatch(hash, after, files) { return WrongContent, after; }
  }
}
