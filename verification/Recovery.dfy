/** The canonical recovery report a guest leaves at shutdown (crates/agent-protocol/src/recovery.rs). */
module Recovery {
  import opened Bytes
  import opened Texts

  const SCHEMA_VERSION: nat := 1
  const MAX_RECORDS: nat := 1024

  datatype Exit = Exit(code: Option<int>, signal: Option<int>, oomKilled: bool)

  datatype Record = Record(id: Text, generation: Option<nat>, configDigest: Text, exit: Exit)

  datatype Report = Report(schemaVersion: nat, records: seq<Record>)

  datatype Construction = Built(report: Report) | WrongSchema | TooMany | BadRecord | NotSortedAndUnique

  // ---------------------------------------------------------------- one record

  predicate ValidExit(exit: Exit) {
    match (exit.code, exit.signal)
    case (Some(code), None) => 0 <= code <= 255 && !exit.oomKilled
    case (None, Some(signal)) => signal > 0
    case _ => false
  }

  /** An exit has a code of one byte or a positive signal, never both, and only a signal can be for want of memory. */
  lemma ExitsExactly(code: int, signal: int, oom: bool)
    ensures ValidExit(Exit(Some(code), None, oom)) <==> 0 <= code < 256 && !oom
    ensures ValidExit(Exit(None, Some(signal), oom)) <==> signal >= 1
    ensures !ValidExit(Exit(Some(code), Some(signal), oom)) && !ValidExit(Exit(None, None, oom))
  {
  }

  predicate ValidRecord(record: Record) {
    && record.generation.Some? && record.generation.value != 0
    && CanonicalDigest(record.configDigest) && ValidExit(record.exit)
  }

  /** A record is valid with a positive generation, a canonical digest and a valid exit, whatever its ID. */
  lemma RecordsExactly(id: Text, generation: int, digest: Text, exit: Exit)
    ensures generation >= 0 ==>
              (ValidRecord(Record(id, Some(generation), digest, exit)) <==>
                 generation >= 1 && CanonicalDigest(digest) && ValidExit(exit))
    ensures !ValidRecord(Record(id, None, digest, exit))
  {
  }

  // ---------------------------------------------------------------- the order of keys

  function Generation(record: Record): nat {
    if record.generation.Some? then record.generation.value else 0
  }

  predicate SameKey(a: Record, b: Record) { a.id == b.id && Generation(a) == Generation(b) }

  predicate Before(a: Record, b: Record) {
    Less(a.id, b.id) || (a.id == b.id && Generation(a) < Generation(b))
  }

  lemma BeforeIsTotal(a: Record, b: Record)
    ensures Before(a, b) || SameKey(a, b) || Before(b, a)
    ensures !(Before(a, b) && Before(b, a)) && (SameKey(a, b) ==> !Before(a, b))
  {
    LessIsTotal(a.id, b.id);
  }

  /** The order of keys by its meaning: by ID, byte by byte, and for one ID the smaller generation first. */
  predicate KeyPrecedes(a: Record, b: Record) {
    || Precedes(a.id, b.id)
    || (a.id == b.id && a.generation.Some? && b.generation.Some? && a.generation.value < b.generation.value)
  }

  lemma BeforeIsKeyPrecedes(a: Record, b: Record)
    requires ValidRecord(a) && ValidRecord(b)
    ensures Before(a, b) <==> KeyPrecedes(a, b)
  {
    LessIsPrecedes(a.id, b.id);
  }

  /** Each record's key precedes the keys of all later ones. */
  predicate KeysRise(records: seq<Record>) {
    forall i, j :: 0 <= i < j < |records| ==> KeyPrecedes(records[i], records[j])
  }

  lemma StrictMeansRising(records: seq<Record>)
    requires AllValid(records)
    ensures Strict(records) <==> KeysRise(records)
  {
    forall i, j | 0 <= i < j < |records| ensures Before(records[i], records[j]) <==> KeyPrecedes(records[i], records[j]) {
      BeforeIsKeyPrecedes(records[i], records[j]);
    }
  }

  lemma BeforeIsTransitive(a: Record, b: Record, c: Record)
    requires Before(a, b) && (Before(b, c) || SameKey(b, c))
    ensures Before(a, c)
  {
    if Less(a.id, b.id) && Less(b.id, c.id) { LessIsTransitive(a.id, b.id, c.id); }
  }

  // ---------------------------------------------------------------- sorting

  /** In key order, equal keys allowed. */
  predicate InOrder(records: seq<Record>) {
    forall i, j :: 0 <= i < j < |records| ==> !Before(records[j], records[i])
  }

  /** In strict key order, so each key once. */
  predicate Strict(records: seq<Record>) {
    forall i, j :: 0 <= i < j < |records| ==> Before(records[i], records[j])
  }

  predicate DistinctKeys(records: seq<Record>) {
    forall i, j :: 0 <= i < j < |records| ==> !SameKey(records[i], records[j])
  }

  /** Insert behind every record that is not after it: equal keys keep their order. */
  function Insert(records: seq<Record>, record: Record): (r: seq<Record>)
    ensures |r| == |records| + 1
  {
    if records == [] || !Before(record, records[|records| - 1]) then records + [record]
    else Insert(records[..|records| - 1], record) + [records[|records| - 1]]
  }

  function Sort(records: seq<Record>): (r: seq<Record>)
    ensures |r| == |records|
  {
    if records == [] then [] else Insert(Sort(records[..|records| - 1]), records[|records| - 1])
  }

  lemma {:induction false} InsertKeeps(records: seq<Record>, record: Record)
    ensures multiset(Insert(records, record)) == multiset(records) + multiset{record}
  {
    if records != [] && Before(record, records[|records| - 1]) {
      InsertKeeps(records[..|records| - 1], record);
      assert records == records[..|records| - 1] + [records[|records| - 1]];
    }
  }

  lemma InsertKeepsBound(records: seq<Record>, record: Record, bound: Record)
    requires forall k :: 0 <= k < |records| ==> !Before(bound, records[k])
    requires !Before(bound, record)
    ensures forall k :: 0 <= k < |Insert(records, record)| ==> !Before(bound, Insert(records, record)[k])
  {
    InsertKeeps(records, record);
    var inserted := Insert(records, record);
    forall k | 0 <= k < |inserted| ensures !Before(bound, inserted[k]) {
      assert inserted[k] in multiset(inserted);
      assert inserted[k] in records || inserted[k] == record;
    }
  }

  lemma {:induction false} InsertOrders(records: seq<Record>, record: Record)
    requires InOrder(records)
    ensures InOrder(Insert(records, record))
  {
    if records != [] {
      var front, last := records[..|records| - 1], records[|records| - 1];
      if Before(record, last) {
        InsertOrders(front, record);
        BeforeIsTotal(record, last);
        InsertKeepsBound(front, record, last);
      } else {
        forall i | 0 <= i < |records| ensures !Before(record, records[i]) {
          if Before(record, records[i]) {
            BeforeIsTotal(records[i], last);
            BeforeIsTransitive(record, records[i], last);
          }
        }
      }
    }
  }

  /** Sorting gives the same records in key order. */
  lemma {:induction false} SortSorts(records: seq<Record>)
    ensures InOrder(Sort(records)) && multiset(Sort(records)) == multiset(records)
  {
    if records != [] {
      var front, last := records[..|records| - 1], records[|records| - 1];
      SortSorts(front);
      InsertOrders(Sort(front), last);
      InsertKeeps(Sort(front), last);
      assert records == front + [last];
    }
  }

  // ---------------------------------------------------------------- permutations and keys

  function CountKey(records: seq<Record>, key: Record): nat {
    if records == [] then 0
    else CountKey(records[..|records| - 1], key) + (if SameKey(records[|records| - 1], key) then 1 else 0)
  }

  lemma {:induction false} CountKeyConcat(a: seq<Record>, b: seq<Record>, key: Record)
    ensures CountKey(a + b, key) == CountKey(a, key) + CountKey(b, key)
  {
    if b == [] {
      assert a + b == a;
    } else {
      CountKeyConcat(a, b[..|b| - 1], key);
      assert (a + b)[..|a + b| - 1] == a + b[..|b| - 1];
    }
  }

  /** Taking one record out takes it out of the multiset. */
  lemma WithoutAt(records: seq<Record>, p: nat)
    requires p < |records|
    ensures multiset(records[..p] + records[p + 1..]) == multiset(records) - multiset{records[p]}
  {
    assert records == records[..p] + [records[p]] + records[p + 1..];
  }

  lemma {:induction false} CountKeyPermutes(a: seq<Record>, b: seq<Record>, key: Record)
    requires multiset(a) == multiset(b)
    ensures CountKey(a, key) == CountKey(b, key)
    decreases |a|
  {
    assert |multiset(a)| == |a| && |multiset(b)| == |b|;
    if a != [] {
      var front, last := a[..|a| - 1], a[|a| - 1];
      WithoutLast(a);
      assert last in multiset(b);
      var p :| 0 <= p < |b| && b[p] == last;
      WithoutAt(b, p);
      assert b == b[..p] + ([last] + b[p + 1..]);
      CountKeyPermutes(front, b[..p] + b[p + 1..], key);
      CountKeyConcat(b[..p], b[p + 1..], key);
      CountKeyConcat(b[..p], [last] + b[p + 1..], key);
      CountKeyConcat([last], b[p + 1..], key);
      assert CountKey([last], key) == if SameKey(last, key) then 1 else 0;
    }
  }

  lemma {:induction false} CountKeySeesTwo(records: seq<Record>, i: nat, j: nat)
    requires i < j < |records| && SameKey(records[i], records[j])
    ensures CountKey(records, records[i]) >= 2
  {
    CountKeyConcat(records[..j], records[j..], records[i]);
    CountKeySeesOne(records[..j], i, records[i]);
    CountKeySeesOne(records[j..], 0, records[i]);
    assert records == records[..j] + records[j..];
  }

  lemma {:induction false} CountKeySeesOne(records: seq<Record>, i: nat, key: Record)
    requires i < |records| && SameKey(records[i], key)
    ensures CountKey(records, key) >= 1
  {
    if i < |records| - 1 { CountKeySeesOne(records[..|records| - 1], i, key); }
  }

  lemma {:induction false} CountedOnce(records: seq<Record>, key: Record)
    requires DistinctKeys(records)
    ensures CountKey(records, key) <= 1
    ensures CountKey(records, key) == 1 ==> exists i :: 0 <= i < |records| && SameKey(records[i], key)
  {
    if records != [] { CountedOnce(records[..|records| - 1], key); }
  }

  lemma DistinctKeysPermute(a: seq<Record>, b: seq<Record>)
    requires multiset(a) == multiset(b) && DistinctKeys(a)
    ensures DistinctKeys(b)
  {
    forall i, j | 0 <= i < j < |b| ensures !SameKey(b[i], b[j]) {
      if SameKey(b[i], b[j]) {
        CountKeySeesTwo(b, i, j);
        CountKeyPermutes(a, b, b[i]);
        CountedOnce(a, b[i]);
      }
    }
  }

  // ---------------------------------------------------------------- building a report

  predicate AllValid(records: seq<Record>) {
    forall i :: 0 <= i < |records| ==> ValidRecord(records[i])
  }

  predicate Adjacent(records: seq<Record>) {
    forall i :: 0 < i < |records| ==> Before(records[i - 1], records[i])
  }

  /** Strict order of neighbours is strict order throughout. */
  lemma {:induction false} AdjacentIsGlobal(records: seq<Record>)
    requires Adjacent(records)
    ensures Strict(records)
  {
    if records != [] {
      var front, last := records[..|records| - 1], records[|records| - 1];
      AdjacentIsGlobal(front);
      forall i | 0 <= i < |front| ensures Before(records[i], last) {
        if i < |front| - 1 { BeforeIsTransitive(records[i], front[|front| - 1], last); }
      }
    }
  }

  function Check(report: Report): Construction {
    if report.schemaVersion != SCHEMA_VERSION then WrongSchema
    else if |report.records| > MAX_RECORDS then TooMany
    else if !AllValid(report.records) then BadRecord
    else if !Adjacent(report.records) then NotSortedAndUnique
    else Built(report)
  }

  method Validate(report: Report) returns (r: Construction)
    ensures r == Check(report)
    ensures r.Built? <==>
              report.schemaVersion == 1 && |report.records| <= 1024 && AllValid(report.records) && KeysRise(report.records)
    ensures r.Built? ==> r.report == report
    ensures r.WrongSchema? <==> report.schemaVersion != 1
    ensures r.TooMany? <==> report.schemaVersion == 1 && |report.records| > 1024
    ensures r.BadRecord? <==> report.schemaVersion == 1 && |report.records| <= 1024 && !AllValid(report.records)
  {
    if |report.records| <= MAX_RECORDS && AllValid(report.records) && KeysRise(report.records) {
      StrictMeansRising(report.records);
    }
    if report.schemaVersion != SCHEMA_VERSION { return WrongSchema; }
    if |report.records| > MAX_RECORDS { return TooMany; }
    for i := 0 to |report.records|
      invariant forall k :: 0 <= k < i ==> ValidRecord(report.records[k])
    {
      if !ValidRecord(report.records[i]) { return BadRecord; }
    }
    for i := 0 to |report.records|
      invariant forall k :: 0 < k < i ==> Before(report.records[k - 1], report.records[k])
    {
      if i > 0 && !Before(report.records[i - 1], report.records[i]) { return NotSortedAndUnique; }
    }
    AdjacentIsGlobal(report.records);
    StrictMeansRising(report.records);
    return Built(report);
  }

  function Build(records: seq<Record>): Construction {
    Check(Report(SCHEMA_VERSION, Sort(records)))
  }

  /**
   A report is built exactly from at most 1024 valid records with pairwise distinct keys; it holds
   those records, keys rising throughout.
   */
  lemma BuildSucceeds(records: seq<Record>)
    ensures Build(records).Built? <==> |records| <= 1024 && AllValid(records) && DistinctKeys(records)
    ensures Build(records).Built? ==>
              var built := Build(records).report.records;
              Strict(built) && KeysRise(built) && multiset(built) == multiset(records)
  {
    var sorted := Sort(records);
    SortSorts(records);
    SameMembersValid(records, sorted);
    if DistinctKeys(records) {
      DistinctKeysPermute(records, sorted);
      forall i | 0 < i < |sorted| ensures Before(sorted[i - 1], sorted[i]) { BeforeIsTotal(sorted[i - 1], sorted[i]); }
    }
    if Adjacent(sorted) {
      AdjacentIsGlobal(sorted);
      forall i, j | 0 <= i < j < |sorted| ensures !SameKey(sorted[i], sorted[j]) { BeforeIsTotal(sorted[i], sorted[j]); }
      DistinctKeysPermute(sorted, records);
    }
    if AllValid(sorted) { StrictMeansRising(sorted); }
  }

  lemma SameMembersValid(a: seq<Record>, b: seq<Record>)
    requires multiset(a) == multiset(b)
    ensures AllValid(a) <==> AllValid(b)
  {
    forall i | 0 <= i < |b| ensures b[i] in a { assert b[i] in multiset(a); }
    forall i | 0 <= i < |a| ensures a[i] in b { assert a[i] in multiset(b); }
  }

  lemma SameLast(a: seq<Record>, b: seq<Record>)
    requires Strict(a) && Strict(b) && multiset(a) == multiset(b) && a != [] && b != []
    ensures a[|a| - 1] == b[|b| - 1]
  {
    var x, y := a[|a| - 1], b[|b| - 1];
    assert x in multiset(b) && y in multiset(a);
    var p :| 0 <= p < |b| && b[p] == x;
    var q :| 0 <= q < |a| && a[q] == y;
    BeforeIsTotal(x, y);
  }

  lemma WithoutLast(records: seq<Record>)
    requires records != []
    ensures multiset(records[..|records| - 1]) == multiset(records) - multiset{records[|records| - 1]}
  {
    assert records == records[..|records| - 1] + [records[|records| - 1]];
  }

  lemma {:induction false} StrictIsUnique(a: seq<Record>, b: seq<Record>)
    requires Strict(a) && Strict(b) && multiset(a) == multiset(b)
    ensures a == b
    decreases |a|
  {
    assert |multiset(a)| == |a| && |multiset(b)| == |b|;
    if a != [] {
      SameLast(a, b);
      WithoutLast(a);
      WithoutLast(b);
      StrictIsUnique(a[..|a| - 1], b[..|b| - 1]);
      assert a == a[..|a| - 1] + [a[|a| - 1]];
    }
  }

  /** The order the records arrive in does not matter, neither for the report nor for the refusal. */
  lemma PermutationInvariant(a: seq<Record>, b: seq<Record>)
    requires multiset(a) == multiset(b)
    ensures Build(a) == Build(b)
  {
    BuildSucceeds(a);
    BuildSucceeds(b);
    SortSorts(a);
    SortSorts(b);
    assert |multiset(a)| == |a| && |multiset(b)| == |b|;
    SameMembersValid(a, b);
    SameMembersValid(Sort(a), Sort(b));
    if DistinctKeys(a) { DistinctKeysPermute(a, b); }
    if DistinctKeys(b) { DistinctKeysPermute(b, a); }
    if Build(a).Built? { StrictIsUnique(Sort(a), Sort(b)); }
  }

  /** `AgentRecoveryReport::new`. */
  method NewReport(records: seq<Record>) returns (r: Construction)
    ensures r == Build(records)
    ensures r.Built? <==> |records| <= 1024 && AllValid(records) && DistinctKeys(records)
    ensures r.Built? ==> KeysRise(r.report.records) && multiset(r.report.records) == multiset(records)
  {
    BuildSucceeds(records);
    r := Validate(Report(SCHEMA_VERSION, Sort(records)));
  }
}
