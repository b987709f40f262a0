/** `Path::file_stem` and `Path::extension` on names other than `.` and `..`. */
module FileNames {

  /** Where the extension's dot is: the last dot, unless that is the first character; 0 if there is none. */
  function SplitAt<T(==)>(name: seq<T>, dot: T, i: nat): (k: nat)
    requires i <= |name|
    ensures k <= i && (k > 0 ==> k < |name| && name[k] == dot)
    decreases i
  {
    if i <= 1 then 0
    else if name[i - 1] == dot then i - 1
    else SplitAt(name, dot, i - 1)
  }

  function Stem<T(==)>(name: seq<T>, dot: T): seq<T> {
    var k := SplitAt(name, dot, |name|);
    if k == 0 then name else name[..k]
  }

  /** The extension with its dot, or nothing. */
  function Suffix<T(==)>(name: seq<T>, dot: T): seq<T> {
    var k := SplitAt(name, dot, |name|);
    if k == 0 then [] else name[k..]
  }

  lemma {:induction false} LastDot<T>(name: seq<T>, dot: T, i: nat, k: nat)
    requires 0 < k < i <= |name| && name[k] == dot && forall j :: k < j < i ==> name[j] != dot
    ensures SplitAt(name, dot, i) == k
    decreases i
  {
    if i - 1 > k {
      LastDot(name, dot, i - 1, k);
    }
  }

  lemma {:induction false} NoDot<T>(name: seq<T>, dot: T, i: nat)
    requires i <= |name| && forall j :: 0 < j < i ==> name[j] != dot
    ensures SplitAt(name, dot, i) == 0
    decreases i
  {
    if i > 1 {
      NoDot(name, dot, i - 1);
    }
  }

  /** A name with an extension: what stands before the last dot, and what stands behind it. */
  lemma WithExtension<T>(stem: seq<T>, ext: seq<T>, dot: T)
    requires stem != [] && dot !in ext
    ensures Stem(stem + [dot] + ext, dot) == stem && Suffix(stem + [dot] + ext, dot) == [dot] + ext
  {
    var name := stem + [dot] + ext;
    LastDot(name, dot, |name|, |stem|);
    assert name[..|stem|] == stem && name[|stem|..] == [dot] + ext;
  }

  lemma Shape<T>(name: seq<T>, dot: T) returns (stem: seq<T>, ext: seq<T>)
    ensures (stem != [] && dot !in ext && name == stem + [dot] + ext)
            || forall j :: 0 < j < |name| ==> name[j] != dot
  {
    var k := DotBelow(name, dot, |name|);
    stem, ext := name[..k], if k == 0 then [] else name[k + 1..];
    assert k > 0 ==> name == name[..k] + [dot] + name[k + 1..];
  }

  /** The last dot below `i` that is not the first character. */
  lemma {:induction false} DotBelow<T>(name: seq<T>, dot: T, i: nat) returns (k: nat)
    requires i <= |name|
    ensures k == 0 || (k < i && name[k] == dot)
    ensures forall j :: k < j < i ==> name[j] != dot
    decreases i
  {
    if i <= 1 || name[i - 1] == dot {
      k := if i <= 1 then 0 else i - 1;
    } else {
      k := DotBelow(name, dot, i - 1);
    }
  }

  /** A name without one: no dot, or only the first character is one. */
  lemma WithoutExtension<T>(name: seq<T>, dot: T)
    requires forall j :: 0 < j < |name| ==> name[j] != dot
    ensures Stem(name, dot) == name && Suffix(name, dot) == []
  {
    NoDot(name, dot, |name|);
  }
}
