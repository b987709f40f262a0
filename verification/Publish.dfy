/** Publication of the staged items (src/airdrop/storage.rs): each is renamed into the destination without ever
    replacing anything, under the first free number. */
module Publish {
  import opened Bytes
  import opened Tree
  import FileNames
  import Radix

  const DOT: byte := 0x2e
  const SPACE: byte := 0x20

  function Stem(name: bytes): bytes {
    FileNames.Stem(name, DOT)
  }

  function Suffix(name: bytes): bytes {
    FileNames.Suffix(name, DOT)
  }

  /** The name tried at a number: `photo.jpg`, `photo 2.jpg`, `photo 3.jpg`, ... */
  function Candidate(name: bytes, number: nat): bytes {
    if number == 1 then name
    else Stem(name) + [SPACE] + Radix.Digits(number, 10) + Suffix(name)
  }

  lemma CandidateLength(name: bytes, number: nat)
    ensures |Candidate(name, number)| == if number == 1 then |name| else |name| + 1 + |Radix.Digits(number, 10)|
  {
    hide FileNames.SplitAt;
    assert |Stem(name)| + |Suffix(name)| == |name|;
  }

  /** Different numbers give different names. */
  lemma CandidateInjective(name: bytes, m: nat, n: nat)
    requires 1 <= m && 1 <= n && Candidate(name, m) == Candidate(name, n)
    ensures m == n
  {
    hide Stem, Suffix;
    CandidateLength(name, m);
    CandidateLength(name, n);
    if m != 1 && n != 1 {
      var s, a, b := |Stem(name)| + 1, Radix.Digits(m, 10), Radix.Digits(n, 10);
      assert Candidate(name, m)[s..s + |a|] == a && Candidate(name, n)[s..s + |b|] == b;
      Radix.DigitsInjective(m, n, 10);
    }
  }

  /** What the candidates are: the number stands between the stem and the extension, which is what follows the last
      dot, or at the end of a name that has none but perhaps a leading one. */
  lemma CandidateShape(name: bytes, stem: bytes, ext: bytes, number: nat)
    ensures Candidate(name, 1) == name
    ensures number >= 2 && stem != [] && DOT !in ext && name == stem + [DOT] + ext ==>
              Candidate(name, number) == stem + [0x20] + Radix.Digits(number, 10) + [DOT] + ext
    ensures number >= 2 && (forall j :: 0 < j < |name| ==> name[j] != DOT) ==>
              Candidate(name, number) == name + [0x20] + Radix.Digits(number, 10)
  {
    if stem != [] && DOT !in ext {
      FileNames.WithExtension(stem, ext, DOT);
    }
    if forall j :: 0 < j < |name| ==> name[j] != DOT {
      FileNames.WithoutExtension(name, DOT);
    }
  }

  /** Every name is of one of these two kinds. */
  lemma NameShape(name: bytes) returns (stem: bytes, ext: bytes)
    ensures (stem != [] && DOT !in ext && name == stem + [DOT] + ext) || forall j :: 0 < j < |name| ==> name[j] != DOT
  {
    stem, ext := FileNames.Shape(name, DOT);
  }

  /** The names below a number. */
  function Tried(name: bytes, number: nat): (s: set<bytes>)
    requires number >= 1
  {
    if number == 1 then {} else Tried(name, number - 1) + {Candidate(name, number - 1)}
  }

  lemma {:induction false} TriedMembers(name: bytes, number: nat)
    requires number >= 1
    ensures forall c :: c in Tried(name, number) <==> exists j :: 1 <= j < number && c == Candidate(name, j)
  {
    if number > 1 {
      TriedMembers(name, number - 1);
    }
  }

  lemma {:induction false} TriedCount(name: bytes, number: nat)
    requires number >= 1
    ensures |Tried(name, number)| == number - 1
  {
    if number > 1 {
      TriedCount(name, number - 1);
      TriedMembers(name, number - 1);
      if Candidate(name, number - 1) in Tried(name, number - 1) {
        var j :| 1 <= j < number - 1 && Candidate(name, number - 1) == Candidate(name, j);
        CandidateInjective(name, j, number - 1);
      }
    }
  }

  /** Every number below this one is taken. */
  ghost predicate AllTaken(dest: Directory, name: bytes, number: nat) {
    forall j :: 1 <= j < number ==> Candidate(name, j) in dest
  }

  /** There are never more failed tries than entries in the destination. */
  lemma Pigeonhole(dest: Directory, name: bytes, number: nat)
    requires number >= 1 && AllTaken(dest, name, number)
    ensures number <= |dest| + 1
  {
    TriedCount(name, number);
    TriedMembers(name, number);
    SubsetSize(Tried(name, number), dest.Keys);
  }

  /** `number` is the first free one. */
  ghost predicate LeastFree(dest: Directory, name: bytes, number: nat) {
    1 <= number && Candidate(name, number) !in dest && AllTaken(dest, name, number)
  }

  datatype Error = RenameFailed | TooManyCollisions

  /** What one rename without replacement reports. `faulty` holds the names on which it fails for
      another reason. */
  datatype Rename = Moved | AlreadyExists | OtherError

  class Disk {
    var dest: Directory
    var staging: Directory

    constructor (dest: Directory, staging: Directory)
      ensures this.dest == dest && this.staging == staging
    {
      this.dest, this.staging := dest, staging;
    }

    /** `renameat2` with RENAME_NOREPLACE. */
    method RenameNoReplace(source: bytes, target: bytes, faulty: set<bytes>) returns (r: Rename)
      requires source in staging
      modifies this
      ensures r == if target in faulty then OtherError else if target in old(dest) then AlreadyExists else Moved
      ensures r == Moved ==> dest == old(dest)[target := old(staging)[source]] && staging == old(staging) - {source}
      ensures r != Moved ==> dest == old(dest) && staging == old(staging)
    {
      if target in faulty {
        return OtherError;
      }
      if target in dest {
        return AlreadyExists;
      }
      dest := dest[target := staging[source]];
      staging := staging - {source};
      r := Moved;
    }

    /** One item: try numbers until a rename succeeds. */
    method PublishOne(name: bytes, faulty: set<bytes>) returns (r: Result<nat, Error>)
      requires name in staging
      modifies this
      ensures r.Ok? ==>
                && LeastFree(old(dest), name, r.value) && r.value <= |old(dest)| + 1
                && dest == old(dest)[Candidate(name, r.value) := old(staging)[name]]
                && staging == old(staging) - {name}
      ensures r.Err? ==> dest == old(dest) && staging == old(staging)
      ensures r == Err(TooManyCollisions) ==> |old(dest)| >= U64_MAX
      ensures r == Err(RenameFailed) ==>
                exists n :: 1 <= n <= |old(dest)| + 1 && Candidate(name, n) in faulty && AllTaken(old(dest), name, n)
    {
      var number := 1;
      while true
        invariant 1 <= number && dest == old(dest) && staging == old(staging)
        invariant AllTaken(dest, name, number)
        decreases |dest| + 1 - number
      {
        Pigeonhole(dest, name, number);
        var outcome := RenameNoReplace(name, Candidate(name, number), faulty);
        if outcome == Moved {
          return Ok(number);
        }
        if outcome == OtherError {
          return Err(RenameFailed);
        }
        if number >= U64_MAX {
          assert AllTaken(dest, name, number + 1);
          Pigeonhole(dest, name, number + 1);
          return Err(TooManyCollisions);
        }
        number := number + 1;
        Pigeonhole(dest, name, number);
      }
    }

    /** The publish loop, over the staged items in whatever order the directory lists them. `landed` is where
        each item went. Whatever the outcome, no entry of the destination changed, every item is either still
        staged or lies under exactly one new name made from its own, and nothing else appeared. */
    method PublishAll(faulty: set<bytes>) returns (r: Option<Error>, ghost landed: map<bytes, bytes>)
      modifies this
      ensures Conserved(old(dest), old(staging), dest, staging, landed)
      ensures r.None? ==> staging == map[]
      ensures faulty == {} && |old(dest)| + |old(staging)| < U64_MAX ==> r.None?
      ensures r.None? && old(dest).Keys !! old(staging).Keys ==> dest == old(dest) + old(staging)
    {
      hide AllTaken, Candidate, Sofar, LeastFree;
      landed := map[];
      SofarAtFirst(dest, staging);
      while staging != map[]
        invariant Sofar(old(dest), old(staging), dest, staging, landed)
        decreases |staging|
      {
        var name :| name in staging;
        ghost var d0, s0 := dest, staging;
        var placed := PublishOne(name, faulty);
        if placed.Err? {
          SofarMeans(old(dest), old(staging), dest, staging, landed);
          assert placed.error.RenameFailed? || placed.error.TooManyCollisions?;
          return Some(placed.error), landed;
        }
        Land(old(dest), old(staging), d0, s0, landed, name, placed.value);
        landed := landed[name := Candidate(name, placed.value)];
      }
      SofarMeans(old(dest), old(staging), dest, staging, landed);
      r := None;
    }
  }

  /** What the publish loop keeps. */
  ghost predicate Sofar(dest0: Directory, first: Directory, dest: Directory, staging: Directory,
                        landed: map<bytes, bytes>) {
    && Conserved(dest0, first, dest, staging, landed)
    && |dest| + |staging| == |dest0| + |first|
    && (dest0.Keys !! first.Keys ==> Straight(dest0, first, dest, staging))
  }

  lemma SofarAtFirst(dest: Directory, staging: Directory)
    ensures Sofar(dest, staging, dest, staging, map[])
  {
  }

  lemma SofarMeans(dest0: Directory, first: Directory, dest: Directory, staging: Directory, landed: map<bytes, bytes>)
    requires Sofar(dest0, first, dest, staging, landed)
    ensures Conserved(dest0, first, dest, staging, landed) && |dest| + |staging| == |dest0| + |first|
    ensures staging == map[] && dest0.Keys !! first.Keys ==> dest == dest0 + first
    ensures staging != map[] ==> |staging| >= 1
  {
    hide Conserved;
    if staging == map[] {
      assert first - staging.Keys == first;
    }
  }

  lemma Land(dest0: Directory, first: Directory, dest: Directory, staging: Directory, landed: map<bytes, bytes>,
             name: bytes, number: nat)
    requires Sofar(dest0, first, dest, staging, landed) && name in staging && LeastFree(dest, name, number)
    ensures var target := Candidate(name, number);
            Sofar(dest0, first, dest[target := staging[name]], staging - {name}, landed[name := target])
    ensures |staging - {name}| == |staging| - 1
  {
    hide Candidate, Conserved, Straight;
    var target := Candidate(name, number);
    assert IsCandidate(name, target);
    LandOne(dest0, first, dest, staging, landed, name, target);
    if dest0.Keys !! first.Keys {
      LandStraight(dest0, first, dest, staging, name, number);
    }
    assert (staging - {name}).Keys == staging.Keys - {name};
    assert dest[target := staging[name]].Keys == dest.Keys + {target};
  }

  /** So far every item that landed kept its name. */
  ghost predicate Straight(dest0: Directory, first: Directory, dest: Directory, staging: Directory) {
    && staging.Keys <= first.Keys && (forall s :: s in staging ==> staging[s] == first[s])
    && dest == dest0 + (first - staging.Keys)
  }

  lemma LandStraight(dest0: Directory, first: Directory, dest: Directory, staging: Directory, name: bytes, number: nat)
    requires dest0.Keys !! first.Keys && Straight(dest0, first, dest, staging) && name in staging
             && LeastFree(dest, name, number)
    ensures Straight(dest0, first, dest[Candidate(name, number) := staging[name]], staging - {name})
  {
    hide Stem, Suffix;
    assert Candidate(name, 1) == name;
  }

  ghost predicate IsCandidate(name: bytes, c: bytes) {
    exists n :: 1 <= n && c == Candidate(name, n)
  }

  /** Nothing of `before` changed. */
  ghost predicate Grew(before: Directory, dest: Directory) {
    forall k :: k in before ==> k in dest && dest[k] == before[k]
  }

  /** The items staged at first are split between those still staged and those that landed. */
  ghost predicate Split(first: Directory, staging: Directory, landed: map<bytes, bytes>) {
    && first.Keys == staging.Keys + landed.Keys
    && staging.Keys !! landed.Keys
    && forall s :: s in staging ==> staging[s] == first[s]
  }

  /** What landed lies in the destination under its new name, which is made from its own and was not there. */
  ghost predicate InPlace(dest0: Directory, first: Directory, dest: Directory, landed: map<bytes, bytes>) {
    forall s :: s in landed ==>
      s in first && landed[s] !in dest0 && landed[s] in dest && dest[landed[s]] == first[s] && IsCandidate(s, landed[s])
  }

  ghost predicate OneToOne(landed: map<bytes, bytes>) {
    forall s, t :: s in landed && t in landed && s != t ==> landed[s] != landed[t]
  }

  /** The entries of `dest0` are untouched, the items of `first` are split between `staging` and, under new and
      different names, `dest`, and there is nothing else. */
  ghost predicate Conserved(dest0: Directory, first: Directory, dest: Directory, staging: Directory,
                            landed: map<bytes, bytes>) {
    && Grew(dest0, dest)
    && Split(first, staging, landed)
    && InPlace(dest0, first, dest, landed)
    && OneToOne(landed)
    && dest.Keys == dest0.Keys + landed.Values
  }

  lemma LandOne(dest0: Directory, first: Directory, dest: Directory, staging: Directory, landed: map<bytes, bytes>,
                name: bytes, target: bytes)
    requires Conserved(dest0, first, dest, staging, landed) && name in staging && target !in dest
             && IsCandidate(name, target)
    ensures Conserved(dest0, first, dest[target := staging[name]], staging - {name}, landed[name := target])
  {
    hide IsCandidate, Split, OneToOne;
    LandKeepsSplit(first, staging, landed, name, target);
    ValuesGrow(landed, name, target);
    assert target !in landed.Values;
    LandKeepsOneToOne(landed, name, target);
  }

  lemma LandKeepsOneToOne(landed: map<bytes, bytes>, name: bytes, target: bytes)
    requires OneToOne(landed) && target !in landed.Values
    ensures OneToOne(landed[name := target])
  {
    assert forall s :: s in landed ==> landed[s] in landed.Values;
  }

  lemma LandKeepsSplit(first: Directory, staging: Directory, landed: map<bytes, bytes>, name: bytes, target: bytes)
    requires Split(first, staging, landed) && name in staging
    ensures Split(first, staging - {name}, landed[name := target]) && name !in landed && name in first
            && staging[name] == first[name]
  {
  }

  lemma ValuesGrow(m: map<bytes, bytes>, k: bytes, v: bytes)
    requires k !in m
    ensures m[k := v].Values == m.Values + {v}
  {
    var m2 := m[k := v];
    forall x | x in m.Values + {v}
      ensures x in m2.Values
    {
      if x == v {
        assert m2[k] == v;
      } else {
        var j :| j in m && m[j] == x;
        assert m2[j] == x;
      }
    }
  }
}
