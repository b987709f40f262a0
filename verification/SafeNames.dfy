/** `safe_name` of src/airdrop/archive.rs, on strings as code points. */
module SafeNames {
  import opened Bytes
  import Utf8

  type Text = seq<nat>

  const SLASH: nat := 0x2f
  const BACKSLASH: nat := 0x5c
  const DOT: nat := 0x2e
  const UNDERSCORE: nat := 0x5f
  const MAX_BYTES := 200

  predicate IsSeparator(c: nat) {
    c == SLASH || c == BACKSLASH
  }

  /** The bytes a character takes in UTF-8. */
  function Width(c: nat): (w: nat)
    ensures 1 <= w <= 4
  {
    if c < 0x80 then 1 else if c < 0x800 then 2 else if c < 0x1_0000 then 3 else 4
  }

  /** `str::len`. */
  function ByteLength(s: Text): nat {
    if s == [] then 0 else ByteLength(s[..|s| - 1]) + Width(s[|s| - 1])
  }

  /** What follows the last separator. */
  function Base(name: Text): (r: Text)
    ensures forall i :: 0 <= i < |r| ==> !IsSeparator(r[i])
  {
    if name == [] || IsSeparator(name[|name| - 1]) then []
    else
      Base(name[..|name| - 1]) + [name[|name| - 1]]
  }

  predicate Forbidden(c: nat) {
    Utf8.IsControl(c) || Utf8.IsBidi(c)
  }

  function Filtered(s: Text): (r: Text)
    ensures forall i :: 0 <= i < |r| ==> !Forbidden(r[i]) && r[i] in s
  {
    if s == [] then []
    else
      var rest := Filtered(s[..|s| - 1]);
      if Forbidden(s[|s| - 1]) then rest else rest + [s[|s| - 1]]
  }

  function DropSpacesBefore(s: Text): (r: Text)
    ensures |r| <= |s| && r == s[|s| - |r|..]
  {
    if s != [] && Utf8.IsWhitespace(s[0]) then DropSpacesBefore(s[1..]) else s
  }

  function DropSpacesAfter(s: Text): (r: Text)
    ensures |r| <= |s| && r == s[..|r|]
  {
    if s != [] && Utf8.IsWhitespace(s[|s| - 1]) then DropSpacesAfter(s[..|s| - 1]) else s
  }

  function DropDots(s: Text): (r: Text)
    ensures |r| <= |s| && r == s[|s| - |r|..] && (r != [] ==> r[0] != DOT)
  {
    if s != [] && s[0] == DOT then DropDots(s[1..]) else s
  }

  function Shortened(s: Text): (r: Text)
    ensures |r| <= |s| && r == s[..|r|]
    ensures ByteLength(r) <= MAX_BYTES
    ensures s != [] ==> r != []
  {
    if ByteLength(s) > MAX_BYTES then Shortened(s[..|s| - 1]) else s
  }

  function Cleaned(name: Text): Text {
    DropDots(DropSpacesAfter(DropSpacesBefore(Filtered(Base(name)))))
  }

  /** The name a received file is stored under; `None` when nothing is left of it. */
  function SafeName(name: Text): (r: Option<Text>) {
    var s := Shortened(Cleaned(name));
    if s == [] then None else Some(s)
  }

  method SafeNameOf(name: Text) returns (r: Option<Text>)
    ensures r == SafeName(name)
  {
    var s := Cleaned(name);
    while ByteLength(s) > MAX_BYTES
      invariant Shortened(s) == Shortened(Cleaned(name))
      decreases |s|
    {
      s := s[..|s| - 1];
    }
    r := if s == [] then None else Some(s);
  }

  /** A name that can only denote a visible file directly in the destination. */
  ghost predicate IsSafe(s: Text) {
    && s != []
    && s[0] != DOT
    && ByteLength(s) <= MAX_BYTES
    && forall i :: 0 <= i < |s| ==> !IsSeparator(s[i]) && !Forbidden(s[i])
  }

  predicate Allowed(c: nat) {
    !IsSeparator(c) && !Forbidden(c)
  }

  ghost predicate AllAllowed(s: Text) {
    forall c :: c in s ==> Allowed(c)
  }

  lemma SliceAllowed(s: Text, lo: nat, hi: nat)
    requires lo <= hi <= |s| && AllAllowed(s)
    ensures AllAllowed(s[lo..hi])
  {
    assert forall c :: c in s[lo..hi] ==> c in s;
  }

  lemma FilteredBaseAllowed(name: Text)
    ensures AllAllowed(Filtered(Base(name)))
  {
    hide Base, Filtered;
    var base := Base(name);
    forall c | c in Filtered(base)
      ensures Allowed(c)
    {
      var i :| 0 <= i < |Filtered(base)| && Filtered(base)[i] == c;
      assert c in base && !Forbidden(c);
      var j :| 0 <= j < |base| && base[j] == c;
    }
  }

  /** Whatever the sender called a file, the name it is stored under is safe. */
  lemma SafeNameIsSafe(name: Text)
    requires SafeName(name).Some?
    ensures IsSafe(SafeName(name).value)
  {
    hide Filtered, DropSpacesBefore, DropSpacesAfter, DropDots, Shortened, Base, ByteLength, AllAllowed;
    FilteredBaseAllowed(name);
    var filtered := Filtered(Base(name));
    var front := DropSpacesBefore(filtered);
    SliceAllowed(filtered, |filtered| - |front|, |filtered|);
    var trimmed := DropSpacesAfter(front);
    SliceAllowed(front, 0, |trimmed|);
    var dotless := DropDots(trimmed);
    SliceAllowed(trimmed, |trimmed| - |dotless|, |trimmed|);
    var s := Shortened(dotless);
    SliceAllowed(dotless, 0, |s|);
    EachAllowed(s);
  }

  lemma EachAllowed(s: Text)
    requires AllAllowed(s)
    ensures forall i :: 0 <= i < |s| ==> !IsSeparator(s[i]) && !Forbidden(s[i])
  {
    assert forall i :: 0 <= i < |s| ==> Allowed(s[i]);
  }

  // ----- what each step leaves, told from the pieces of the name -----

  predicate Spaces(t: Text) {
    forall i :: 0 <= i < |t| ==> Utf8.IsWhitespace(t[i])
  }

  /** No white space at either end. */
  predicate Bare(t: Text) {
    t != [] ==> !Utf8.IsWhitespace(t[0]) && !Utf8.IsWhitespace(t[|t| - 1])
  }

  lemma {:induction false} SpacesBeforeGo(pre: Text, t: Text)
    requires Spaces(pre) && (t != [] ==> !Utf8.IsWhitespace(t[0]))
    ensures DropSpacesBefore(pre + t) == t
    decreases |pre|
  {
    if pre == [] {
      assert pre + t == t;
    } else {
      assert (pre + t)[1..] == pre[1..] + t;
      SpacesBeforeGo(pre[1..], t);
    }
  }

  lemma {:induction false} SpacesAfterGo(t: Text, post: Text)
    requires Spaces(post) && (t != [] ==> !Utf8.IsWhitespace(t[|t| - 1]))
    ensures DropSpacesAfter(t + post) == t
    decreases |post|
  {
    if post == [] {
      assert t + post == t;
    } else {
      var k := |t + post| - 1;
      assert (t + post)[..k] == t + post[..|post| - 1] && (t + post)[k] == post[|post| - 1];
      SpacesAfterGo(t, post[..|post| - 1]);
    }
  }

  /** `trim` leaves what stands between the outer white space. */
  lemma TrimIs(pre: Text, mid: Text, post: Text)
    requires Spaces(pre) && Spaces(post) && Bare(mid)
    ensures DropSpacesAfter(DropSpacesBefore(pre + mid + post)) == mid
  {
    if mid == [] {
      assert pre + mid + post == (pre + post) + [];
      SpacesBeforeGo(pre + post, []);
    } else {
      assert pre + mid + post == pre + (mid + post);
      SpacesBeforeGo(pre, mid + post);
      SpacesAfterGo(mid, post);
    }
  }

  lemma {:induction false} SpacesBefore(t: Text)
    ensures Spaces(t[..|t| - |DropSpacesBefore(t)|])
    ensures DropSpacesBefore(t) != [] ==> !Utf8.IsWhitespace(DropSpacesBefore(t)[0])
    decreases |t|
  {
    hide Utf8.IsWhitespace;
    if t != [] && Utf8.IsWhitespace(t[0]) {
      SpacesBefore(t[1..]);
      var rest := t[1..][..|t| - 1 - |DropSpacesBefore(t)|];
      forall i | 0 <= i < |rest| + 1
        ensures Utf8.IsWhitespace(t[i])
      {
        assert i > 0 ==> t[i] == rest[i - 1];
      }
    }
  }

  lemma {:induction false} SpacesAfter(t: Text)
    ensures Spaces(t[|DropSpacesAfter(t)|..])
    ensures DropSpacesAfter(t) != [] ==> !Utf8.IsWhitespace(DropSpacesAfter(t)[|DropSpacesAfter(t)| - 1])
    decreases |t|
  {
    hide Utf8.IsWhitespace;
    if t != [] && Utf8.IsWhitespace(t[|t| - 1]) {
      var k := |t| - 1;
      SpacesAfter(t[..k]);
      var n := |DropSpacesAfter(t)|;
      var rest := t[..k][n..];
      forall i | n <= i < |t|
        ensures Utf8.IsWhitespace(t[i])
      {
        assert i < k ==> t[i] == rest[i - n];
      }
    }
  }

  lemma TrimParts(t: Text) returns (pre: Text, post: Text)
    ensures var mid := DropSpacesAfter(DropSpacesBefore(t));
            Spaces(pre) && Spaces(post) && Bare(mid) && t == pre + mid + post
  {
    hide Utf8.IsWhitespace, Spaces, DropSpacesBefore, DropSpacesAfter;
    var front := DropSpacesBefore(t);
    var mid := DropSpacesAfter(front);
    SpacesBefore(t);
    SpacesAfter(front);
    CutAt(t, |t| - |front|);
    CutAt(front, |mid|);
    pre, post := t[..|t| - |front|], front[|mid|..];
    FirstOf(front, mid);
    Regrouped(pre, mid, post);
  }

  lemma FirstOf(front: Text, mid: Text)
    requires mid <= front
    ensures mid != [] ==> front != [] && front[0] == mid[0]
  {
  }

  lemma Regrouped(a: Text, b: Text, c: Text)
    ensures a + (b + c) == a + b + c
  {
  }

  lemma {:induction false} BaseIs(dir: Text, base: Text)
    requires dir != [] ==> IsSeparator(dir[|dir| - 1])
    requires forall i :: 0 <= i < |base| ==> !IsSeparator(base[i])
    ensures Base(dir + base) == base
    decreases |base|
  {
    if base == [] {
      assert dir + base == dir;
    } else {
      var k := |base| - 1;
      assert (dir + base)[..|dir + base| - 1] == dir + base[..k] && base[..k] + [base[k]] == base;
      BaseIs(dir, base[..k]);
    }
  }

  lemma {:induction false} BaseSplit(name: Text) returns (dir: Text)
    ensures name == dir + Base(name) && (dir != [] ==> IsSeparator(dir[|dir| - 1]))
    decreases |name|
  {
    if name == [] || IsSeparator(name[|name| - 1]) {
      dir := name;
    } else {
      dir := BaseSplit(name[..|name| - 1]);
      assert name == name[..|name| - 1] + [name[|name| - 1]];
    }
  }

  /** `r` is what stands in `s` at the places `at`, which are those of the characters not forbidden, in order. */
  ghost predicate Keeps(s: Text, r: Text, at: seq<nat>) {
    && |at| == |r|
    && (forall i :: 0 <= i < |at| ==> at[i] < |s| && r[i] == s[at[i]] && !Forbidden(r[i]))
    && (forall i, j :: 0 <= i < j < |at| ==> at[i] < at[j])
    && (forall k :: 0 <= k < |s| && !Forbidden(s[k]) ==> k in at)
  }

  lemma {:induction false} FilteredIs(s: Text, r: Text, at: seq<nat>)
    requires Keeps(s, r, at)
    ensures Filtered(s) == r
    decreases |s|
  {
    hide Forbidden, Keeps;
    if s == [] {
      KeepsSome(s, r, at);
    } else if Forbidden(s[|s| - 1]) {
      KeepsButLast(s, r, at);
      FilteredIs(s[..|s| - 1], r, at);
    } else {
      KeepsLast(s, r, at);
      FilteredIs(s[..|s| - 1], r[..|r| - 1], at[..|r| - 1]);
      assert r == r[..|r| - 1] + [r[|r| - 1]];
    }
  }

  lemma KeepsSome(s: Text, r: Text, at: seq<nat>)
    requires Keeps(s, r, at)
    ensures r != [] ==> s != []
  {
    hide Forbidden;
    if r != [] {
      assert at[0] < |s|;
    }
  }

  lemma KeepsButLast(s: Text, r: Text, at: seq<nat>)
    requires Keeps(s, r, at) && s != [] && Forbidden(s[|s| - 1])
    ensures Keeps(s[..|s| - 1], r, at)
  {
    hide Forbidden;
    var k := |s| - 1;
    forall i | 0 <= i < |at|
      ensures at[i] < k
    {
      assert r[i] == s[at[i]];
    }
  }

  lemma LastPlace(s: Text, r: Text, at: seq<nat>)
    requires Keeps(s, r, at) && s != [] && !Forbidden(s[|s| - 1])
    ensures |at| == |r| > 0 && at[|at| - 1] == |s| - 1 && r[|r| - 1] == s[|s| - 1]
  {
    hide Forbidden;
    var k, n := |s| - 1, |at| - 1;
    assert k in at;
    var i :| 0 <= i < |at| && at[i] == k;
    assert at[n] <= k;
  }

  lemma KeepsLast(s: Text, r: Text, at: seq<nat>)
    requires Keeps(s, r, at) && s != [] && !Forbidden(s[|s| - 1])
    ensures |at| == |r| > 0 && r[|r| - 1] == s[|s| - 1]
    ensures Keeps(s[..|s| - 1], r[..|r| - 1], at[..|r| - 1])
  {
    hide Forbidden;
    LastPlace(s, r, at);
    var k, n := |s| - 1, |at| - 1;
    forall j | 0 <= j < k && !Forbidden(s[j])
      ensures j in at[..n]
    {
      PlaceBelow(at, j);
    }
  }

  lemma PlaceBelow(at: seq<nat>, j: nat)
    requires j in at && j != at[|at| - 1]
    ensures j in at[..|at| - 1]
  {
    assert at == at[..|at| - 1] + [at[|at| - 1]];
  }

  lemma {:induction false} FilteredPlaces(s: Text) returns (at: seq<nat>)
    ensures Keeps(s, Filtered(s), at)
    decreases |s|
  {
    hide Forbidden, Keeps;
    at := [];
    NothingKept();
    if s != [] {
      at := FilteredPlaces(s[..|s| - 1]);
      KeepsOneMore(s, Filtered(s[..|s| - 1]), at);
      if !Forbidden(s[|s| - 1]) {
        at := at + [|s| - 1];
      }
    }
  }

  lemma NothingKept()
    ensures Keeps([], [], [])
  {
  }

  lemma KeepsOneMore(s: Text, r: Text, at: seq<nat>)
    requires s != [] && Keeps(s[..|s| - 1], r, at)
    ensures if Forbidden(s[|s| - 1]) then Keeps(s, r, at) else Keeps(s, r + [s[|s| - 1]], at + [|s| - 1])
  {
    hide Forbidden;
    var k := |s| - 1;
    forall j | 0 <= j < |s| && !Forbidden(s[j])
      ensures j in at + [k]
    {
      assert j < k ==> s[..k][j] == s[j];
    }
  }

  lemma {:induction false} DotsGo(dots: Text, t: Text)
    requires (forall i :: 0 <= i < |dots| ==> dots[i] == DOT) && (t != [] ==> t[0] != DOT)
    ensures DropDots(dots + t) == t
    decreases |dots|
  {
    if dots == [] {
      assert dots + t == t;
    } else {
      assert (dots + t)[1..] == dots[1..] + t;
      DotsGo(dots[1..], t);
    }
  }

  lemma {:induction false} DotsBefore(t: Text)
    ensures forall i :: 0 <= i < |t| - |DropDots(t)| ==> t[i] == DOT
    decreases |t|
  {
    if t != [] && t[0] == DOT {
      DotsBefore(t[1..]);
      forall i | 0 <= i < |t| - |DropDots(t)|
        ensures t[i] == DOT
      {
        assert i > 0 ==> t[i] == t[1..][i - 1];
      }
    }
  }

  /** The limit counts the bytes of the name in UTF-8. */
  lemma {:induction false} ByteLengthMeans(s: Text)
    requires forall c :: c in s ==> Utf8.IsScalar(c)
    ensures ByteLength(s) == |Utf8.Encode(s)|
  {
    if s != [] {
      var k := |s| - 1;
      ByteLengthMeans(s[..k]);
      assert s == s[..k] + [s[k]] && Utf8.Encode([s[k]]) == Utf8.EncodeOne(s[k]) + Utf8.Encode([s[k]][1..]);
      Utf8.EncodeAppend(s[..k], [s[k]]);
    }
  }

  lemma {:induction false} LongerTakesMore(s: Text, n: nat)
    requires n <= |s|
    ensures ByteLength(s[..n]) <= ByteLength(s)
    decreases |s|
  {
    if n < |s| {
      assert s[..|s| - 1][..n] == s[..n];
      LongerTakesMore(s[..|s| - 1], n);
    } else {
      assert s[..n] == s;
    }
  }

  /** `r` is the longest prefix that fits. */
  ghost predicate LongestFitting(s: Text, r: Text) {
    r <= s && ByteLength(r) <= MAX_BYTES && (|r| < |s| ==> ByteLength(s[..|r| + 1]) > MAX_BYTES)
  }

  lemma {:induction false} ShortenedIs(s: Text, r: Text)
    requires LongestFitting(s, r)
    ensures Shortened(s) == r
    decreases |s|
  {
    hide ByteLength;
    if |r| < |s| {
      LongerTakesMore(s, |r| + 1);
      var shorter := s[..|s| - 1];
      assert |r| + 1 <= |shorter| ==> shorter[..|r| + 1] == s[..|r| + 1];
      ShortenedIs(shorter, r);
    } else {
      assert r == s;
    }
  }

  lemma {:induction false} ShortenedIsLongest(s: Text)
    ensures LongestFitting(s, Shortened(s))
    decreases |s|
  {
    if ByteLength(s) > MAX_BYTES {
      var shorter, r := s[..|s| - 1], Shortened(s[..|s| - 1]);
      ShortenedIsLongest(shorter);
      assert s[..|s|] == s;
      assert |r| < |shorter| ==> shorter[..|r| + 1] == s[..|r| + 1];
    }
  }

  /** A sender's name in pieces: the directory and the base name, and of what is not forbidden in that, in order, the
      outer white space, the leading dots and the rest. */
  datatype Pieces = Pieces(dir: Text, base: Text, at: seq<nat>, before: Text, dots: Text, left: Text, after: Text)

  ghost predicate MadeOf(name: Text, p: Pieces) {
    && name == p.dir + p.base
    && (p.dir != [] ==> IsSeparator(p.dir[|p.dir| - 1]))
    && (forall i :: 0 <= i < |p.base| ==> !IsSeparator(p.base[i]))
    && Keeps(p.base, p.before + (p.dots + p.left) + p.after, p.at)
    && Spaces(p.before) && Spaces(p.after) && Bare(p.dots + p.left)
    && (forall i :: 0 <= i < |p.dots| ==> p.dots[i] == DOT) && (p.left != [] ==> p.left[0] != DOT)
  }

  /** The stored name, for every name: the longest prefix of at most 200 bytes of what is left of the base name without
      forbidden characters, then without outer white space, then without leading dots; none exactly if nothing is
      left. */
  lemma SafeNameMeans(name: Text, p: Pieces, r: Text)
    requires MadeOf(name, p) && LongestFitting(p.left, r)
    ensures SafeName(name) == if p.left == [] then None else Some(r)
  {
    hide Base, Filtered, DropSpacesBefore, DropSpacesAfter, DropDots, Shortened, Keeps, Spaces, Bare;
    BaseIs(p.dir, p.base);
    FilteredIs(p.base, p.before + (p.dots + p.left) + p.after, p.at);
    TrimIs(p.before, p.dots + p.left, p.after);
    DotsGo(p.dots, p.left);
    assert Cleaned(name) == p.left;
    ShortenedIs(p.left, r);
  }

  lemma CutAt(t: Text, k: nat)
    requires k <= |t|
    ensures t == t[..k] + t[k..]
  {
  }

  /** And every name has such pieces. */
  lemma NameHasPieces(name: Text) returns (p: Pieces, r: Text)
    ensures MadeOf(name, p) && LongestFitting(p.left, r)
  {
    hide Base, Filtered, DropSpacesBefore, DropSpacesAfter, DropDots, Shortened, Keeps, Spaces, Bare, LongestFitting;
    var base := Base(name);
    var at := FilteredPlaces(base);
    var filtered := Filtered(base);
    var before, after := TrimParts(filtered);
    var trimmed := DropSpacesAfter(DropSpacesBefore(filtered));
    DotsBefore(trimmed);
    var left := DropDots(trimmed);
    var dots := trimmed[..|trimmed| - |left|];
    CutAt(trimmed, |trimmed| - |left|);
    var dir := BaseSplit(name);
    p := Pieces(dir, base, at, before, dots, left, after);
    assert p.base == base && p.before + (p.dots + p.left) + p.after == filtered;
    ShortenedIsLongest(p.left);
    r := Shortened(p.left);
  }

  lemma KeepsAll(s: Text) returns (at: seq<nat>)
    requires forall i :: 0 <= i < |s| ==> !Forbidden(s[i])
    ensures Keeps(s, s, at)
  {
    at := seq(|s|, i requires 0 <= i < |s| => i);
    forall k | 0 <= k < |s|
      ensures k in at
    {
      assert at[k] == k;
    }
  }

  /** A name that is safe already, without white space around it, is kept. */
  lemma SafeNameKeeps(name: Text)
    requires IsSafe(name) && Bare(name)
    ensures SafeName(name) == Some(name)
  {
    hide SafeName, Keeps, Bare, Forbidden, LongestFitting, MadeOf;
    var p := WholeName(name);
    FitsWhole(name);
    SafeNameMeans(name, p, name);
  }

  lemma FitsWhole(s: Text)
    requires ByteLength(s) <= MAX_BYTES
    ensures LongestFitting(s, s)
  {
  }

  lemma NothingAround(t: Text, none: Text)
    requires none == []
    ensures none + (none + t) + none == t && none + t == t
  {
  }

  lemma WholeName(name: Text) returns (p: Pieces)
    requires IsSafe(name) && Bare(name)
    ensures MadeOf(name, p) && p.left == name
  {
    hide Keeps, Bare, Forbidden;
    var at := KeepsAll(name);
    p := Pieces([], name, at, [], [], name, []);
    NothingAround(name, []);
    assert Keeps(p.base, p.before + (p.dots + p.left) + p.after, p.at);
  }

  /** So the name of a stored file is its own safe name, unless shortening left white space at its end or dropping the
      dots left some at its start. */
  lemma SafeNameIsStable(name: Text)
    requires SafeName(name).Some? && Bare(SafeName(name).value)
    ensures SafeName(SafeName(name).value) == SafeName(name)
  {
    hide SafeName, IsSafe, Bare;
    SafeNameIsSafe(name);
    SafeNameKeeps(SafeName(name).value);
  }
}
