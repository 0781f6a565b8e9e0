/** Guest and host paths: splitting, resolving and the runtime share (crates/agent-protocol/src/model.rs). */
module Paths {
  import opened Bytes
  import opened Texts

  const MAX_GUEST_PATH_BYTES: nat := 4096

  /** Rust's split at every slash: one component more than there are slashes. */
  function Split(text: Text): (components: seq<Text>)
    ensures components != []
  {
    if text == [] then [[]]
    else
      var rest := Split(text[1..]);
      if text[0] == 47 then [[]] + rest else [[text[0]] + rest[0]] + rest[1..]
  }

  /** Components with a slash between each two. */
  function Joined(components: seq<Text>): Text
    requires components != []
  {
    if |components| == 1 then components[0] else components[0] + [47] + Joined(components[1..])
  }

  /** Splitting loses nothing and leaves no slash: there is only one list of which both are true. */
  lemma {:induction false} SplitIsExact(text: Text)
    ensures Joined(Split(text)) == text
    ensures forall i :: 0 <= i < |Split(text)| ==> 47 !in Split(text)[i]
  {
    if text != [] {
      SplitIsExact(text[1..]);
      var rest := Split(text[1..]);
      assert text == [text[0]] + text[1..];
      if text[0] == 47 {
        assert ([[]] + rest)[1..] == rest;
        assert [] + [47] + Joined(rest) == text;
      } else {
        JoinedHead(text[0], rest);
      }
    }
  }

  lemma JoinedHead(c: byte, components: seq<Text>)
    requires components != []
    ensures Joined([[c] + components[0]] + components[1..]) == [c] + Joined(components)
  {
    var all := [[c] + components[0]] + components[1..];
    if |components| > 1 {
      assert all[1..] == components[1..];
      var tail := Joined(components[1..]);
      assert ([c] + components[0]) + [47] + tail == [c] + (components[0] + [47] + tail);
    }
  }

  predicate Plain(component: Text) { component != [] && component != [46] && component != [46, 46] }

  predicate AllPlain(components: seq<Text>) { forall i :: 0 <= i < |components| ==> Plain(components[i]) }

  predicate ValidGuestPath(path: Text) {
    && path != [] && path[0] == 47 && |path| <= MAX_GUEST_PATH_BYTES && 0 !in path && 92 !in path
    && (path == [47] || (path[|path| - 1] != 47 && AllPlain(Split(path)[1..])))
  }

  lemma SplitHead(c: byte, text: Text)
    ensures Split([c] + text) == if c == 47 then [[]] + Split(text) else [[c] + Split(text)[0]] + Split(text)[1..]
  {
    assert ([c] + text)[1..] == text;
  }

  lemma JoinComponents(c: byte, x: seq<Text>, y: seq<Text>)
    requires x != []
    ensures [[]] + (x + y) == ([[]] + x) + y
    ensures [[c] + (x + y)[0]] + (x + y)[1..] == ([[c] + x[0]] + x[1..]) + y
  {
    assert (x + y)[1..] == x[1..] + y;
  }

  lemma SplitConcatStep(c: byte, a: Text, b: Text, whole: Text)
    requires Split(whole) == Split(a) + Split(b)
    ensures Split([c] + whole) == Split([c] + a) + Split(b)
  {
    SplitHead(c, a);
    SplitHead(c, whole);
    JoinComponents(c, Split(a), Split(b));
  }

  lemma {:induction false} SplitConcat(a: Text, b: Text)
    ensures Split(a + ([47] + b)) == Split(a) + Split(b)
  {
    if a == [] {
      SplitHead(47, b);
      assert a + ([47] + b) == [47] + b;
    } else {
      var rest := a[1..] + ([47] + b);
      SplitConcat(a[1..], b);
      SplitConcatStep(a[0], a[1..], b, rest);
      assert [a[0]] + a[1..] == a && [a[0]] + rest == a + ([47] + b);
    }
  }

  /** Where a path leads: empty and dot components stay, a double dot goes up. */
  function Resolve(components: seq<Text>): seq<Text> {
    if components == [] then []
    else
      var parent, last := Resolve(components[..|components| - 1]), components[|components| - 1];
      if last == [] || last == [46] then parent
      else if last == [46, 46] then (if parent == [] then [] else parent[..|parent| - 1])
      else parent + [last]
  }

  lemma {:induction false} PlainResolves(components: seq<Text>)
    requires AllPlain(components)
    ensures Resolve(components) == components
  {
    if components != [] {
      var front, last := components[..|components| - 1], components[|components| - 1];
      PlainResolves(front);
      assert components == front + [last];
    }
  }

  // "run" and "a3s-oci-runtime"
  const RUN: Text := [114, 117, 110]
  const SHARE: Text := [97, 51, 115, 45, 111, 99, 105, 45, 114, 117, 110, 116, 105, 109, 101]
  const SHARE_ROOT: Text := [47] + RUN + [47] + SHARE

  lemma ShareText()
    ensures SHARE_ROOT + [47] == Ascii("/run/a3s-oci-runtime/")
  {
  }

  predicate NoSlashes(components: seq<Text>) { forall i :: 0 <= i < |components| ==> 47 !in components[i] }

  /** Joining and splitting again gives the components back. */
  lemma {:induction false} SplitUndoesJoined(components: seq<Text>)
    requires components != [] && NoSlashes(components)
    ensures Split(Joined(components)) == components
  {
    NoSlashNoSplit(components[0]);
    if |components| > 1 {
      var rest := Joined(components[1..]);
      SplitUndoesJoined(components[1..]);
      SplitConcat(components[0], rest);
      assert components[0] + [47] + rest == components[0] + ([47] + rest);
      assert components == [components[0]] + components[1..];
    } else {
      assert components == [components[0]];
    }
  }

  /** A slash before each of one or more plain components: a normalized absolute path that is not the root. */
  ghost predicate IsNormal(path: Text) {
    exists components: seq<Text> ::
      components != [] && AllPlain(components) && NoSlashes(components) && path == [47] + Joined(components)
  }

  /** Which paths pass the component check. */
  lemma NormalExactly(path: Text)
    ensures IsNormal(path) <==> |path| >= 2 && path[0] == 47 && AllPlain(Split(path)[1..])
    ensures IsNormal(path) ==> path[|path| - 1] != 47
  {
    if components: seq<Text> :|
       components != [] && AllPlain(components) && NoSlashes(components) && path == [47] + Joined(components) {
      SplitUndoesJoined(components);
      SplitHead(47, Joined(components));
      assert ([[]] + components)[1..] == components;
      JoinedEnds(components);
    }
    if |path| >= 2 && path[0] == 47 && AllPlain(Split(path)[1..]) {
      SplitHead(47, path[1..]);
      SplitIsExact(path[1..]);
      assert path == [47] + path[1..];
      var components := Split(path[1..]);
      assert ([[]] + components)[1..] == components;
      assert path == [47] + Joined(components);
    }
  }

  lemma {:induction false} JoinedEnds(components: seq<Text>)
    requires components != [] && AllPlain(components) && NoSlashes(components)
    ensures Joined(components) != [] && Joined(components)[|Joined(components)| - 1] != 47
  {
    if |components| > 1 {
      JoinedEnds(components[1..]);
    } else {
      assert components[0][|components[0]| - 1] in components[0];
    }
  }

  /** A guest path is the root or a normalized absolute path, of at most 4096 bytes without NUL or backslash. */
  lemma GuestPathsExactly(path: Text)
    ensures ValidGuestPath(path) <==>
              (path == [47] || IsNormal(path)) && |path| <= 4096 && forall b <- path :: b != 0 && b != 92
  {
    NormalExactly(path);
  }

  lemma {:induction false} NoSlashNoSplit(text: Text)
    requires 47 !in text
    ensures Split(text) == [text]
  {
    if text != [] {
      NoSlashNoSplit(text[1..]);
      assert text == [text[0]] + text[1..];
    }
  }

  lemma Regrouped(x: Text, y: Text, rest: Text)
    ensures [47] + x + [47] + y + [47] + rest == [47] + (x + ([47] + (y + ([47] + rest))))
  {
    var tail := [47] + rest;
    Associative([47] + x + [47] + y, [47], rest);
    Associative([47] + x + [47], y, tail);
    Associative([47] + x, [47], y + tail);
    Associative([47], x, [47] + (y + tail));
  }

  /** The components of a path below "/x/y/". */
  lemma SplitBelow(x: Text, y: Text, rest: Text)
    requires 47 !in x && 47 !in y
    ensures Split([47] + x + [47] + y + [47] + rest) == [[], x, y] + Split(rest)
  {
    var inner := y + ([47] + rest);
    Regrouped(x, y, rest);
    SplitHead(47, x + ([47] + inner));
    SplitConcat(x, inner);
    SplitConcat(y, rest);
    NoSlashNoSplit(x);
    NoSlashNoSplit(y);
  }

  lemma BelowResolves(x: Text, y: Text, path: Text)
    requires 47 !in x && 47 !in y && [47] + x + [47] + y + [47] <= path && AllPlain(Split(path)[1..])
    ensures var below := Split(path[|x| + |y| + 3..]);
            AllPlain(below) && Resolve(Split(path)) == [x, y] + below
  {
    var rest := path[|x| + |y| + 3..];
    assert path == [47] + x + [47] + y + [47] + rest;
    SplitBelow(x, y, rest);
    var below := Split(rest);
    assert Split(path)[1..] == [x, y] + below;
    assert forall i :: 0 <= i < |below| ==> below[i] == ([x, y] + below)[i + 2];
    LeadingEmpty(Split(path));
    PlainResolves(Split(path)[1..]);
  }

  /** A path that leads, component by component, to a proper descendant of the runtime share. */
  predicate BelowShare(path: Text) {
    var leadsTo := Resolve(Split(path));
    |leadsTo| > 2 && leadsTo[0] == RUN && leadsTo[1] == SHARE && AllPlain(leadsTo)
  }

  /** A valid path that passes the prefix check is one. */
  lemma BundleIsBelowShare(path: Text)
    requires ValidGuestPath(path) && SHARE_ROOT + [47] <= path
    ensures BelowShare(path)
  {
    BelowResolves(RUN, SHARE, path);
  }

  lemma {:induction false} LeadingEmpty(components: seq<Text>)
    requires components != [] && components[0] == []
    ensures Resolve(components) == Resolve(components[1..])
  {
    if |components| > 1 {
      LeadingEmpty(components[..|components| - 1]);
      assert components[..|components| - 1][1..] == components[1..][..|components| - 2];
    } else {
      assert components[..0] == [];
    }
  }
}
