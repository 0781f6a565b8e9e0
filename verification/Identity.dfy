/**
 Idempotency identities of the containerd shim and its retry loops
 (crates/containerd-shim/src/identity.rs, crates/containerd-shim/src/adapter.rs). An identity is a
 hash; the model is about the bytes that are hashed.
 */
module Identity {
  import opened Bytes
  import opened Framing
  import opened Texts

  /** What `digest_components` feeds to the hash. */
  method FeedComponents(components: seq<Text>) returns (fed: Text)
    ensures fed == Framed(BigEndian8, components)
  {
    fed := [];
    for i := 0 to |components|
      invariant fed == Framed(BigEndian8, components[..i])
    {
      FramedOneMore(BigEndian8, components[..i], components[i]);
      assert components[..i + 1] == components[..i] + [components[i]];
      assert fed + Frame(BigEndian8, components[i]) == (fed + BigEndian(|components[i]|, 8)) + components[i];
      fed := fed + BigEndian(|components[i]|, 8);
      fed := fed + components[i];
    }
    assert components[..|components|] == components;
  }

  // ---------------------------------------------------------------- operations

  datatype Exec = Exec(id: Text, incarnation: nat)

  /** Everything a mutating request is identified by. */
  datatype Operation = Operation(namespace: Text, task: Text, incarnation: Option<Text>, exec: Option<Exec>, action: Text)

  predicate Representable(o: Operation) {
    && |o.namespace| < U64_LIMIT && |o.task| < U64_LIMIT && |o.action| < U64_LIMIT
    && (o.incarnation.Some? ==> |o.incarnation.value| < U64_LIMIT)
    && (o.exec.Some? ==> |o.exec.value.id| < U64_LIMIT && o.exec.value.incarnation < U64_LIMIT)
  }

  function ExecComponents(exec: Option<Exec>): seq<Text> {
    match exec
    case None => []
    case Some(Exec(id, incarnation)) => [id] + (if incarnation != 0 then [BigEndian8(incarnation)] else [])
  }

  function Components(o: Operation): seq<Text> {
    [o.namespace, o.task] + (if o.incarnation.Some? then [o.incarnation.value] else [])
      + ExecComponents(o.exec) + [o.action]
  }

  function OperationBytes(o: Operation): Text { Framed(BigEndian8, Components(o)) }

  /** What a container ID is hashed from. */
  function ContainerBytes(namespace: Text, task: Text): Text { Framed(BigEndian8, [namespace, task]) }

  /** What the ID of an exec process is hashed from. */
  function ProcessBytes(namespace: Text, task: Text, exec: Exec): Text {
    Framed(BigEndian8, [namespace, task] + ExecComponents(Some(exec)))
  }

  /**
   What a reader of the hashed bytes finds: the namespace, the task, the task's incarnation if it has
   one, the exec's ID and, unless zero, its incarnation in eight bytes, and last the action.
   */
  function Hashed(o: Operation): seq<Text> {
    match (o.incarnation, o.exec)
    case (None, None) => [o.namespace, o.task, o.action]
    case (Some(incarnation), None) => [o.namespace, o.task, incarnation, o.action]
    case (None, Some(exec)) =>
      if exec.incarnation == 0 then [o.namespace, o.task, exec.id, o.action]
      else [o.namespace, o.task, exec.id, BigEndian(exec.incarnation, 8), o.action]
    case (Some(incarnation), Some(exec)) =>
      if exec.incarnation == 0 then [o.namespace, o.task, incarnation, exec.id, o.action]
      else [o.namespace, o.task, incarnation, exec.id, BigEndian(exec.incarnation, 8), o.action]
  }

  lemma ComponentsInOrder(o: Operation)
    ensures Components(o) == Hashed(o)
  {
  }

  lemma ComponentsFit(o: Operation)
    requires Representable(o)
    ensures Fits(Components(o))
  {
  }

  /** What is hashed reads back, frame by frame, in this order. */
  lemma HashedInOrder(o: Operation)
    requires Representable(o)
    ensures Unframed(FromBigEndian, OperationBytes(o)) == Some(Hashed(o))
  {
    var components := Components(o);
    HeadersAreRead();
    ComponentsFit(o);
    FramedReadsBack(FromBigEndian, BigEndian8, components);
    ComponentsInOrder(o);
  }

  /** A container's ID is hashed from namespace and task. */
  lemma ContainerHashedInOrder(namespace: Text, task: Text)
    requires Fits([namespace, task])
    ensures Unframed(FromBigEndian, ContainerBytes(namespace, task)) == Some([namespace, task])
  {
    HeadersAreRead();
    FramedReadsBack(FromBigEndian, BigEndian8, [namespace, task]);
  }

  function HashedProcess(namespace: Text, task: Text, exec: Exec): seq<Text> {
    if exec.incarnation == 0 then [namespace, task, exec.id]
    else [namespace, task, exec.id, BigEndian(exec.incarnation, 8)]
  }

  /** An exec process's from these, the exec's ID and, unless zero, its incarnation. */
  lemma ProcessHashedInOrder(namespace: Text, task: Text, exec: Exec)
    requires |namespace| < U64_LIMIT && |task| < U64_LIMIT && |exec.id| < U64_LIMIT
    ensures Unframed(FromBigEndian, ProcessBytes(namespace, task, exec)) == Some(HashedProcess(namespace, task, exec))
  {
    var components := [namespace, task] + ExecComponents(Some(exec));
    HeadersAreRead();
    FramedReadsBack(FromBigEndian, BigEndian8, components);
    assert components == HashedProcess(namespace, task, exec);
  }

  /** Container IDs are hashed from different bytes for different tasks or namespaces. */
  lemma ContainerIdentity(namespace: Text, task: Text, otherNamespace: Text, otherTask: Text)
    requires Fits([namespace, task]) && Fits([otherNamespace, otherTask])
    ensures ContainerBytes(namespace, task) == ContainerBytes(otherNamespace, otherTask) <==>
            namespace == otherNamespace && task == otherTask
  {
    BigEndian8IsHeader();
    var a, b := [namespace, task], [otherNamespace, otherTask];
    if Framed(BigEndian8, a) == Framed(BigEndian8, b) {
      FramedIsInjective(BigEndian8, a, b);
      assert a[0] == b[0] && a[1] == b[1];
    }
  }

  /** Process IDs are, for different execs and for different incarnations of one; none is hashed like a container's. */
  lemma ProcessIdentity(x: Operation, y: Operation)
    requires Representable(x) && Representable(y) && x.exec.Some? && y.exec.Some?
    ensures ProcessBytes(x.namespace, x.task, x.exec.value) == ProcessBytes(y.namespace, y.task, y.exec.value) <==>
            x.namespace == y.namespace && x.task == y.task && x.exec == y.exec
    ensures ProcessBytes(x.namespace, x.task, x.exec.value) != ContainerBytes(y.namespace, y.task)
  {
    BigEndian8IsHeader();
    var a := [x.namespace, x.task] + ExecComponents(x.exec);
    var b := [y.namespace, y.task] + ExecComponents(y.exec);
    if Framed(BigEndian8, a) == Framed(BigEndian8, b) {
      FramedIsInjective(BigEndian8, a, b);
      assert a[0] == b[0] && a[1] == b[1] && a[2] == b[2];
      if |a| == 4 { assert a[3] == b[3]; }
    }
    if Framed(BigEndian8, a) == ContainerBytes(y.namespace, y.task) {
      FramedIsInjective(BigEndian8, a, [y.namespace, y.task]);
    }
  }

  /** An exec identity written where a task incarnation stands: `with` has an incarnation, `without` has none. */
  predicate Aliases(with: Operation, without: Operation) {
    && with.incarnation.Some? && without.incarnation.None? && without.exec.Some?
    && with.namespace == without.namespace && with.task == without.task && with.action == without.action
    && without.exec.value.id == with.incarnation.value
    && ((with.exec.None? && without.exec.value.incarnation == 0)
        || (with.exec.Some? && with.exec.value.incarnation == 0 && without.exec.value.incarnation != 0
            && with.exec.value.id == BigEndian8(without.exec.value.incarnation)))
  }

  lemma SameClassComponents(x: Operation, y: Operation)
    requires Representable(x) && Representable(y) && Components(x) == Components(y)
    requires x.incarnation.Some? == y.incarnation.Some?
    ensures x == y
  {
    var a, b := Components(x), Components(y);
    var from := if x.incarnation.Some? then 3 else 2;
    assert a[0] == b[0] && a[1] == b[1] && a[2] == b[2] && a[|a| - 1] == b[|b| - 1];
    assert a[from..|a| - 1] == ExecComponents(x.exec) && b[from..|b| - 1] == ExecComponents(y.exec);
    if x.exec.Some? && y.exec.Some? {
      assert ExecComponents(x.exec)[0] == x.exec.value.id && ExecComponents(y.exec)[0] == y.exec.value.id;
      if x.exec.value.incarnation != 0 {
        assert ExecComponents(x.exec)[1] == ExecComponents(y.exec)[1];
        BigEndian8IsHeader();
        assert BigEndian8(x.exec.value.incarnation) == BigEndian8(y.exec.value.incarnation);
      }
    }
  }

  lemma OtherClassComponents(with: Operation, without: Operation)
    requires with.incarnation.Some? && without.incarnation.None?
    ensures Components(with) == Components(without) <==> Aliases(with, without)
  {
    var a, b := Components(with), Components(without);
    if a == b {
      assert a[0] == b[0] && a[1] == b[1] && a[2] == b[2] && a[3] == b[3] && a[|a| - 1] == b[|b| - 1];
    }
  }

  /**
   Two operations are hashed from the same bytes exactly when they are the same operation, or one
   names a task incarnation where the other has none and reads it as an exec identity.
   */
  lemma OperationIdentity(x: Operation, y: Operation)
    requires Representable(x) && Representable(y)
    ensures OperationBytes(x) == OperationBytes(y) <==> x == y || Aliases(x, y) || Aliases(y, x)
  {
    if OperationBytes(x) == OperationBytes(y) {
      BigEndian8IsHeader();
      FramedIsInjective(BigEndian8, Components(x), Components(y));
    }
    if x.incarnation.Some? && y.incarnation.None? {
      OtherClassComponents(x, y);
    } else if y.incarnation.Some? && x.incarnation.None? {
      OtherClassComponents(y, x);
    } else if Components(x) == Components(y) {
      SameClassComponents(x, y);
    }
  }

  /** For tasks with an incarnation the identity is injective. */
  lemma IncarnatedIdentity(x: Operation, y: Operation)
    requires Representable(x) && Representable(y) && x.incarnation.Some? && y.incarnation.Some?
    ensures OperationBytes(x) == OperationBytes(y) <==> x == y
  {
    OperationIdentity(x, y);
  }

  /** Without one it is not: an exec named like an incarnation shares its identity with a whole incarnation. */
  lemma LegacyAlias(namespace: Text, task: Text, incarnation: Text, action: Text)
    ensures OperationBytes(Operation(namespace, task, Some(incarnation), None, action)) ==
            OperationBytes(Operation(namespace, task, None, Some(Exec(incarnation, 0)), action))
  {
    assert Components(Operation(namespace, task, Some(incarnation), None, action)) ==
           Components(Operation(namespace, task, None, Some(Exec(incarnation, 0)), action));
  }

  // ---------------------------------------------------------------- sequence-numbered actions

  datatype Kind = Pause | Resume | Update | Kill | Resize | WriteStdin | Signal

  /** "pause-", "resume-", "update-", "kill-", "resize-", "write-stdin-" and "signal-". */
  function Stem(kind: Kind): (stem: Text)
    ensures stem != [] && stem[|stem| - 1] == 45
  {
    match kind
    case Pause => [112, 97, 117, 115, 101, 45]
    case Resume => [114, 101, 115, 117, 109, 101, 45]
    case Update => [117, 112, 100, 97, 116, 101, 45]
    case Kill => [107, 105, 108, 108, 45]
    case Resize => [114, 101, 115, 105, 122, 101, 45]
    case WriteStdin => [119, 114, 105, 116, 101, 45, 115, 116, 100, 105, 110, 45]
    case Signal => [115, 105, 103, 110, 97, 108, 45]
  }

  /** The stems as text. */
  lemma StemTexts()
    ensures Stem(Pause) == Ascii("pause-") && Stem(Resume) == Ascii("resume-") && Stem(Update) == Ascii("update-")
    ensures Stem(Kill) == Ascii("kill-") && Stem(Resize) == Ascii("resize-") && Stem(Signal) == Ascii("signal-")
    ensures Stem(WriteStdin) == Ascii("write-stdin-")
  {
  }

  function ActionName(kind: Kind, sequence: nat): Text { Stem(kind) + Decimal(sequence) }

  /** Digits after the last dash: where the dash is, is where the stem ends. */
  lemma LastDash(stem: Text, digits: Text, otherStem: Text, otherDigits: Text)
    requires stem != [] && stem[|stem| - 1] == 45 && otherStem != [] && otherStem[|otherStem| - 1] == 45
    requires forall i :: 0 <= i < |digits| ==> digits[i] != 45
    requires forall i :: 0 <= i < |otherDigits| ==> otherDigits[i] != 45
    requires stem + digits == otherStem + otherDigits
    ensures stem == otherStem && digits == otherDigits
  {
    var name := stem + digits;
    assert name[|stem| - 1] == 45 && name[|otherStem| - 1] == 45;
    assert stem == name[..|stem|] && otherStem == name[..|otherStem|];
    assert digits == name[|stem|..] && otherDigits == name[|otherStem|..];
  }

  lemma StemsDiffer(k: Kind, l: Kind)
    requires Stem(k) == Stem(l)
    ensures k == l
  {
    assert |Stem(k)| == |Stem(l)| && Stem(k)[0] == Stem(l)[0] && Stem(k)[3] == Stem(l)[3];
  }

  lemma ActionNameIsInjective(k: Kind, m: nat, l: Kind, n: nat)
    requires ActionName(k, m) == ActionName(l, n)
    ensures k == l && m == n
  {
    LastDash(Stem(k), Decimal(m), Stem(l), Decimal(n));
    StemsDiffer(k, l);
    DecimalRoundTrip(m);
    DecimalRoundTrip(n);
  }

  /**
   Two sequence-numbered actions on incarnated tasks are hashed from the same bytes only if they are
   the same action, with the same number, on the same exec or task, in the same namespace.
   */
  lemma NumberedIdentity(x: Operation, y: Operation, k: Kind, m: nat, l: Kind, n: nat)
    requires x.incarnation.Some? && y.incarnation.Some? && Representable(x) && Representable(y)
    requires x.action == ActionName(k, m) && y.action == ActionName(l, n)
    ensures OperationBytes(x) == OperationBytes(y) <==>
            k == l && m == n && x.exec == y.exec && x.incarnation == y.incarnation
            && x.namespace == y.namespace && x.task == y.task
  {
    IncarnatedIdentity(x, y);
    if x.action == y.action { ActionNameIsInjective(k, m, l, n); }
  }

  // ---------------------------------------------------------------- retry loops

  const RETRY_INTERVAL: nat := 10    // milliseconds
  const RETRY_TIMEOUT: nat := 2000

  datatype Reply = Done | Refused(retryable: bool)

  /** Attempt `k` gets `reply(k)` at time `at(k)`; a sleep of one interval separates two attempts. */
  ghost predicate ClockAdvances(at: nat -> nat) {
    forall k: nat :: at(k + 1) >= at(k) + RETRY_INTERVAL
  }

  lemma {:induction false} ClockBound(at: nat -> nat, k: nat)
    requires ClockAdvances(at)
    ensures at(k) >= at(0) + RETRY_INTERVAL * k
  {
    if k > 0 {
      ClockBound(at, k - 1);
      assert at((k - 1) + 1) >= at(k - 1) + RETRY_INTERVAL;
    }
  }

  /**
   A retry loop (delete, and replaying create or restore for cleanup). Every attempt carries the same
   identity; it stops at the first answer that is not retryable, or at a retryable one once the time
   is up, after at most 201 attempts.
   */
  method RetryLoop(o: Operation, started: nat, at: nat -> nat, reply: nat -> Reply)
    returns (r: Reply, attempts: seq<Text>)
    requires ClockAdvances(at) && started <= at(0)
    ensures forall k :: 0 <= k < |attempts| ==> attempts[k] == OperationBytes(o)
    ensures 1 <= |attempts| <= RETRY_TIMEOUT / RETRY_INTERVAL + 1
    ensures r == reply(|attempts| - 1)
    ensures forall k :: 0 <= k < |attempts| - 1 ==> reply(k) == Refused(true) && at(k) < started + RETRY_TIMEOUT
    ensures r == Refused(true) ==> at(|attempts| - 1) >= started + RETRY_TIMEOUT
  {
    var deadline := started + RETRY_TIMEOUT;
    attempts := [];
    while true
      invariant forall k :: 0 <= k < |attempts| ==> attempts[k] == OperationBytes(o)
      invariant forall k :: 0 <= k < |attempts| ==> reply(k) == Refused(true) && at(k) < deadline
      invariant |attempts| <= RETRY_TIMEOUT / RETRY_INTERVAL
      decreases RETRY_TIMEOUT / RETRY_INTERVAL - |attempts|
    {
      ghost var k := |attempts|;
      ClockBound(at, k);
      var fed := FeedComponents(Components(o));
      attempts := attempts + [fed];
      r := reply(|attempts| - 1);
      if r.Done? || !r.retryable || at(|attempts| - 1) >= deadline { return; }
    }
  }
}
