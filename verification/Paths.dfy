/** Names inside an archive: what the sender lets in (src/airdrop/outgoing.rs) and what the receiver makes of
    them (src/airdrop/storage.rs). */
module Paths {
  import opened Bytes
  import Utf8

  const SLASH: byte := 0x2f
  const BACKSLASH: byte := 0x5c
  const DOT: bytes := [0x2e]
  const DOTDOT: bytes := [0x2e, 0x2e]
  const DOT_SLASH: bytes := [0x2e, 0x2f]
  const DOT_UNDERSCORE: bytes := [0x2e, 0x5f]
  const MAX_NAME := 4096
  const MAX_PART := 255

  /** A path below some directory: its components. */
  type Path = seq<bytes>

  predicate HasControl(name: bytes) {
    exists i :: 0 <= i < |Utf8.Chars(name)| && Utf8.IsControl(Utf8.Chars(name)[i])
  }

  predicate HasBidi(name: bytes) {
    exists i :: 0 <= i < |Utf8.Chars(name)| && Utf8.IsBidi(Utf8.Chars(name)[i])
  }

  /** `filename`: what the sender accepts as the last component of a path it walks. */
  predicate Sendable(name: bytes) {
    && Utf8.Valid(name)
    && |name| <= MAX_PART
    && !HasControl(name) && BACKSLASH !in name
    && name != DOT && name != DOTDOT
  }

  /** What every name in a directory is. */
  predicate IsFileName(name: bytes) {
    name != [] && SLASH !in name
  }

  function IndexOf(b: bytes, c: byte): (i: nat)
    ensures i <= |b| && (i < |b| ==> b[i] == c) && c !in b[..i]
  {
    if b == [] then 0
    else if b[0] == c then 0
    else
      var i := IndexOf(b[1..], c) + 1;
      assert b[..i] == [b[0]] + b[1..][..i - 1];
      i
  }

  /** `split('/')`. */
  function Split(b: bytes): (r: seq<bytes>)
    decreases |b|
  {
    var i := IndexOf(b, SLASH);
    if i == |b| then [b] else [b[..i]] + Split(b[i + 1..])
  }

  predicate Skipped(part: bytes) {
    part == [] || part == DOT
  }

  /** What the receiver accepts as a component. */
  predicate SafePart(part: bytes) {
    part != DOTDOT && |part| <= MAX_PART && !HasControl(part) && !HasBidi(part)
  }

  function Components(parts: seq<bytes>): Option<Path> {
    if parts == [] then Some([])
    else if Skipped(parts[0]) then Components(parts[1..])
    else if !SafePart(parts[0]) then None
    else match Components(parts[1..])
      case None => None
      case Some(rest) => Some([parts[0]] + rest)
  }

  /** `relative`: the path a name denotes below the staging directory; `None` when it is refused. */
  function Relative(name: bytes): (r: Option<Path>)
    ensures r.Some? ==> r.value != []
  {
    if (name != [] && name[0] == SLASH) || BACKSLASH in name || |name| > MAX_NAME then None
    else
      var r := Components(Split(name));
      if r == Some([]) then None else r
  }

  method RelativeOf(name: bytes) returns (r: Option<Path>)
    ensures r == Relative(name)
  {
    if (name != [] && name[0] == SLASH) || BACKSLASH in name || |name| > MAX_NAME {
      return None;
    }
    var parts := Split(name);
    var path: Path := [];
    assert parts[0..] == parts;
    assert forall rest: Path :: path + rest == rest;
    for i := 0 to |parts|
      invariant Components(parts) == match Components(parts[i..]) case None => None case Some(rest) => Some(path + rest)
    {
      var part := parts[i];
      if Skipped(part) {
        continue;
      }
      if !SafePart(part) {
        return None;
      }
      path := path + [part];
      assert forall rest: Path :: path + rest == path[..|path| - 1] + ([part] + rest);
    }
    assert path + [] == path;
    r := if path == [] then None else Some(path);
  }

  /** The name the sender writes for a path: `./a/b/c`. */
  function Tail(path: Path): (r: bytes) {
    if path == [] then [] else [SLASH] + path[0] + Tail(path[1..])
  }

  function NameOf(path: Path): (r: bytes) {
    DOT + Tail(path)
  }

  lemma {:induction false} TailSnoc(path: Path, part: bytes)
    ensures Tail(path + [part]) == Tail(path) + [SLASH] + part
  {
    if path == [] {
      assert path + [part] == [part];
      assert Tail([part]) == [SLASH] + part + Tail([]);
    } else {
      assert (path + [part])[1..] == path[1..] + [part];
      TailSnoc(path[1..], part);
    }
  }

  /** `format!("{name}/{base}")`. */
  lemma NameOfChild(path: Path, part: bytes)
    ensures NameOf(path + [part]) == NameOf(path) + [SLASH] + part
  {
    TailSnoc(path, part);
  }

  lemma {:induction false} IndexOfFirst(a: bytes, c: byte, b: bytes)
    requires c !in a
    ensures IndexOf(a + [c] + b, c) == |a|
  {
    if a != [] {
      assert (a + [c] + b)[1..] == a[1..] + [c] + b;
      IndexOfFirst(a[1..], c, b);
    }
  }

  lemma {:induction false} IndexOfNone(a: bytes, c: byte)
    requires c !in a
    ensures IndexOf(a, c) == |a|
  {
    if a != [] {
      IndexOfNone(a[1..], c);
    }
  }

  lemma {:induction false} SplitTail(first: bytes, path: Path)
    requires SLASH !in first && forall i :: 0 <= i < |path| ==> SLASH !in path[i]
    ensures Split(first + Tail(path)) == [first] + path
    decreases |path|
  {
    hide IndexOf;
    if path == [] {
      assert first + Tail(path) == first;
      IndexOfNone(first, SLASH);
    } else {
      var rest := path[0] + Tail(path[1..]);
      assert first + Tail(path) == first + [SLASH] + rest;
      IndexOfFirst(first, SLASH, rest);
      assert (first + [SLASH] + rest)[|first| + 1..] == rest;
      SplitTail(path[0], path[1..]);
    }
  }

  /** A component the sender takes. */
  predicate PlainPart(part: bytes) {
    IsFileName(part) && Sendable(part)
  }

  ghost predicate PlainPath(path: Path) {
    forall i :: 0 <= i < |path| ==> PlainPart(path[i])
  }

  ghost predicate BidiFree(path: Path) {
    forall i :: 0 <= i < |path| ==> !HasBidi(path[i])
  }

  /** The receiver takes the sender's components exactly when none has a bidirectional formatting character. */
  lemma {:induction false} ComponentsOfPlain(path: Path)
    requires PlainPath(path)
    ensures Components(path) == if BidiFree(path) then Some(path) else None
  {
    if path != [] {
      assert forall i :: 0 <= i < |path| - 1 ==> path[1..][i] == path[i + 1];
      ComponentsOfPlain(path[1..]);
      assert PlainPart(path[0]) && [path[0]] + path[1..] == path;
      if !BidiFree(path) && !HasBidi(path[0]) {
        var i :| 0 <= i < |path| && HasBidi(path[i]);
        assert path[1..][i - 1] == path[i];
      }
    }
  }

  lemma {:induction false} TailText(path: Path)
    requires PlainPath(path)
    ensures BACKSLASH !in Tail(path) && Utf8.Valid(Tail(path))
    ensures |path| > 0 ==> |Tail(path)| >= 2
  {
    if path != [] {
      assert forall i :: 0 <= i < |path| - 1 ==> path[1..][i] == path[i + 1];
      TailText(path[1..]);
      assert PlainPart(path[0]);
      Utf8.AsciiDecodes([SLASH]);
      Utf8.DecodeAppend([SLASH], path[0]);
      Utf8.DecodeAppend([SLASH] + path[0], Tail(path[1..]));
    }
  }

  /** The receiver reads the sender's name as the very path it was written for, exactly when no component has
      a bidirectional formatting character; otherwise it refuses it. */
  lemma RelativeOfName(path: Path)
    requires PlainPath(path) && path != [] && |NameOf(path)| <= MAX_NAME
    ensures Relative(NameOf(path)) == if BidiFree(path) then Some(path) else None
    ensures Utf8.Valid(NameOf(path)) && |NameOf(path)| > 2
  {
    TailText(path);
    Utf8.AsciiDecodes(DOT);
    Utf8.DecodeAppend(DOT, Tail(path));
    SplitTail(DOT, path);
    ComponentsOfPlain(path);
    assert ([DOT] + path)[1..] == path;
  }

  // ----- every name, from its segments -----

  /** The segments with slashes between them. */
  function Joined(parts: seq<bytes>): (r: bytes)
    requires parts != []
  {
    if |parts| == 1 then parts[0] else parts[0] + [SLASH] + Joined(parts[1..])
  }

  predicate SlashFree(parts: seq<bytes>) {
    forall i :: 0 <= i < |parts| ==> SLASH !in parts[i]
  }

  lemma {:induction false} SplitJoined(parts: seq<bytes>)
    requires parts != [] && SlashFree(parts)
    ensures Split(Joined(parts)) == parts
    decreases |parts|
  {
    hide IndexOf;
    if |parts| == 1 {
      IndexOfNone(parts[0], SLASH);
    } else {
      var first, rest := parts[0], Joined(parts[1..]);
      IndexOfFirst(first, SLASH, rest);
      assert (first + [SLASH] + rest)[..|first|] == first && (first + [SLASH] + rest)[|first| + 1..] == rest;
      SplitJoined(parts[1..]);
    }
  }

  lemma {:induction false} JoinedSplit(name: bytes)
    ensures Split(name) != [] && SlashFree(Split(name)) && Joined(Split(name)) == name
    decreases |name|
  {
    hide IndexOf;
    var i := IndexOf(name, SLASH);
    if i == |name| {
      assert name[..i] == name;
    } else {
      var rest := name[i + 1..];
      JoinedSplit(rest);
      JoinedCons(name[..i], Split(rest));
      assert name == name[..i] + [SLASH] + rest;
    }
  }

  lemma JoinedCons(part: bytes, rest: seq<bytes>)
    requires rest != []
    ensures Joined([part] + rest) == part + [SLASH] + Joined(rest)
  {
    assert ([part] + rest)[1..] == rest;
  }

  /** A segment that stands for no component. */
  predicate Empty(part: bytes) {
    part == [] || part == [0x2e]
  }

  /** A segment that no path may have: the parent directory, or too long, or with a control or bidirectional character.
      */
  predicate Refused(part: bytes) {
    part == [0x2e, 0x2e] || |part| > 255 || exists i :: 0 <= i < |Utf8.Chars(part)| && Unwanted(Utf8.Chars(part)[i])
  }

  predicate Unwanted(c: nat) {
    Utf8.IsControl(c) || Utf8.IsBidi(c)
  }

  function Kept(parts: seq<bytes>): Path {
    if parts == [] then [] else if Empty(parts[0]) then Kept(parts[1..]) else [parts[0]] + Kept(parts[1..])
  }

  ghost predicate UnsafeName(name: bytes, parts: seq<bytes>) {
    || (name != [] && name[0] == 0x2f) || 0x5c in name || |name| > 4096
    || (exists i :: 0 <= i < |parts| && Refused(parts[i]))
    || (forall i :: 0 <= i < |parts| ==> Empty(parts[i]))
  }

  lemma {:induction false} ComponentsMean(parts: seq<bytes>)
    ensures Components(parts) == if exists i :: 0 <= i < |parts| && Refused(parts[i]) then None else Some(Kept(parts))
    ensures Kept(parts) == [] <==> forall i :: 0 <= i < |parts| ==> Empty(parts[i])
    decreases |parts|
  {
    hide Refused, Empty, SafePart, Skipped;
    if parts != [] {
      SegmentMeans(parts[0]);
      ComponentsMean(parts[1..]);
      assert forall i :: 0 <= i < |parts| - 1 ==> parts[1..][i] == parts[i + 1];
      if i :| 0 <= i < |parts| && Refused(parts[i]) {
        assert i > 0 ==> parts[1..][i - 1] == parts[i];
      }
      if j :| 0 <= j < |parts| - 1 && Refused(parts[1..][j]) {
        assert parts[j + 1] == parts[1..][j];
      }
    }
  }

  lemma SegmentMeans(part: bytes)
    ensures Skipped(part) <==> Empty(part)
    ensures SafePart(part) <==> !Refused(part)
    ensures Empty(part) ==> !Refused(part)
  {
    if part == [0x2e] {
      Utf8.AsciiDecodes(part);
    }
  }

  /** What the receiver makes of any name: it is refused exactly if it is absolute, has a backslash, is longer than
      4096 bytes, has a segment that no path may have, or has no segment that stands for a component; and otherwise the
      path is its other segments, in order. */
  lemma RelativeMeans(parts: seq<bytes>)
    requires parts != [] && SlashFree(parts)
    ensures Relative(Joined(parts)) == if UnsafeName(Joined(parts), parts) then None else Some(Kept(parts))
  {
    hide Components, Refused, Empty, Kept;
    SplitJoined(parts);
    ComponentsMean(parts);
  }

  /** A name that can only denote an entry of the directory it is looked up in. */
  predicate SafeComponent(c: bytes) {
    && c != [] && c != [0x2e] && c != [0x2e, 0x2e] && 0x2f !in c && 0x5c !in c && |c| <= 255
    && forall i :: 0 <= i < |Utf8.Chars(c)| ==> !Unwanted(Utf8.Chars(c)[i])
  }

  ghost predicate SafePath(path: Path) {
    forall i :: 0 <= i < |path| ==> SafeComponent(path[i])
  }

  /** And every path it accepts stays below the directory it is taken from. */
  lemma RelativeIsSafe(name: bytes)
    requires Relative(name).Some?
    ensures Relative(name).value != [] && SafePath(Relative(name).value)
  {
    hide Components, Split;
    JoinedSplit(name);
    SegmentsOf(Split(name));
    ComponentsAreSafe(Split(name));
  }

  lemma {:induction false} SegmentsOf(parts: seq<bytes>)
    requires parts != []
    ensures forall i, c :: 0 <= i < |parts| && c in parts[i] ==> c in Joined(parts)
    decreases |parts|
  {
    if |parts| > 1 {
      SegmentsOf(parts[1..]);
      forall i, c | 0 <= i < |parts| && c in parts[i]
        ensures c in Joined(parts)
      {
        assert i > 0 ==> parts[i] == parts[1..][i - 1];
      }
    }
  }

  lemma {:induction false} ComponentsAreSafe(parts: seq<bytes>)
    requires SlashFree(parts) && (forall i :: 0 <= i < |parts| ==> BACKSLASH !in parts[i]) && Components(parts).Some?
    ensures SafePath(Components(parts).value)
    decreases |parts|
  {
    hide SafePart, SafeComponent;
    if parts != [] {
      assert forall i :: 0 <= i < |parts| - 1 ==> parts[1..][i] == parts[i + 1];
      ComponentsAreSafe(parts[1..]);
      if !Skipped(parts[0]) {
        PartIsSafe(parts[0]);
      }
    }
  }

  lemma PartIsSafe(part: bytes)
    requires SLASH !in part && BACKSLASH !in part && !Skipped(part) && SafePart(part)
    ensures SafeComponent(part)
  {
  }
}
