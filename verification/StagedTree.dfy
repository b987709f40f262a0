/** What unpacking does to the staging directory on any archive: what each file-system call changes, path by path, and
    that nothing is ever staged outside the directory or replaced. */
module StagedTree {
  import opened Bytes
  import opened Cpio
  import opened Paths
  import opened Tree
  import opened Receiver

  predicate Occupied(d: Directory, path: Path) {
    Lookup(d, path).Some?
  }

  predicate IsFile(d: Directory, path: Path) {
    Lookup(d, path).Some? && Lookup(d, path).value.File?
  }

  predicate IsDir(d: Directory, path: Path) {
    Lookup(d, path).Some? && Lookup(d, path).value.Dir?
  }

  lemma LookupCons(d: Directory, path: Path)
    requires path != []
    ensures Lookup(d, path) == if path[0] !in d then None
                               else if |path| == 1 then Some(d[path[0]])
                               else if d[path[0]].Dir? then Lookup(d[path[0]].entries, path[1..]) else None
  {
  }

  /** Below a name that holds a directory. */
  lemma LookupUnder(d: Directory, path: Path, sub: Directory)
    requires path != [] && path[0] in d && d[path[0]] == Dir(sub)
    ensures Lookup(d, path) == Lookup(sub, path[1..])
  {
    LookupCons(d, path);
    if |path| == 1 {
      assert path[1..] == [];
    }
  }

  /** What the making of directories along `path` means for the path `q`. */
  ghost predicate MadeAt(d: Directory, after: Directory, path: Path, q: Path) {
    if q <= path then IsDir(after, q) else Lookup(after, q) == Lookup(d, q)
  }

  /** `create_dir_all` fails exactly if a file is in the way; otherwise all of the path are directories afterwards, and
      everything beside the path is as it was. */
  lemma {:induction false} MakeDirsMeans(d: Directory, path: Path)
    ensures MakeDirs(d, path).Ok? <==> forall k :: 0 <= k <= |path| ==> !IsFile(d, path[..k])
    ensures MakeDirs(d, path).Ok? ==> forall q: Path :: MadeAt(d, MakeDirs(d, path).value, path, q)
    decreases |path|
  {
    hide MakeDirs, Lookup;
    if path == [] {
      MakeNone(d);
      LookupRoot(d);
      forall q: Path
        ensures MadeAt(d, d, path, q)
      {
        assert q <= path ==> q == [];
      }
      assert forall k :: 0 <= k <= |path| ==> path[..k] == [];
    } else {
      var name := path[0];
      MakeDirsCons(d, path);
      if name in d && d[name].File? {
        LookupCons(d, path[..1]);
        assert IsFile(d, path[..1]);
      } else {
        var was := if name in d then d[name].entries else map[];
        MakeDirsMeans(was, path[1..]);
        WaysAgree(d, was, path);
        if MakeDirs(was, path[1..]).Ok? {
          var sub := MakeDirs(was, path[1..]).value;
          var after := d[name := Dir(sub)];
          forall q: Path
            ensures MadeAt(d, after, path, q)
          {
            MadeBelow(d, was, sub, path, q);
          }
        }
      }
    }
  }

  lemma MakeNone(d: Directory)
    ensures MakeDirs(d, []) == Ok(d)
  {
  }

  lemma LookupRoot(d: Directory)
    ensures Lookup(d, []) == Some(Dir(d))
  {
  }

  lemma MakeDirsCons(d: Directory, path: Path)
    requires path != []
    ensures var name := path[0];
            MakeDirs(d, path) == if name in d && d[name].File? then Err(NotADirectory)
                                 else match MakeDirs(if name in d then d[name].entries else map[], path[1..])
                                      case Err(e) => Err(e)
                                      case Ok(sub) => Ok(d[name := Dir(sub)])
  {
  }

  /** What is in the way below the first component is in the way. */
  lemma WaysAgree(d: Directory, was: Directory, path: Path)
    requires path != [] && !(path[0] in d && d[path[0]].File?)
    requires was == if path[0] in d then d[path[0]].entries else map[]
    ensures (forall k :: 0 <= k <= |path| ==> !IsFile(d, path[..k]))
       <==> (forall k :: 0 <= k <= |path| - 1 ==> !IsFile(was, path[1..][..k]))
  {
    forall k | 0 <= k <= |path| - 1
      ensures IsFile(was, path[1..][..k]) <==> IsFile(d, path[..k + 1])
    {
      assert path[..k + 1][1..] == path[1..][..k];
      if path[0] in d {
        LookupUnder(d, path[..k + 1], was);
      } else {
        LookupCons(d, path[..k + 1]);
        NothingThere(path[1..][..k]);
      }
    }
    LookupRoot(d);
    assert path[..0] == [];
    forall k | 0 <= k <= |path|
      ensures k > 0 ==> (IsFile(d, path[..k]) <==> IsFile(was, path[1..][..k - 1]))
    {
    }
  }

  lemma NothingThere(path: Path)
    ensures !IsFile(map[], path)
    ensures path != [] ==> Lookup(map[], path).None?
  {
  }

  lemma MadeBelow(d: Directory, was: Directory, sub: Directory, path: Path, q: Path)
    requires path != [] && !(path[0] in d && d[path[0]].File?)
    requires was == if path[0] in d then d[path[0]].entries else map[]
    requires q != [] ==> MadeAt(was, sub, path[1..], q[1..])
    ensures MadeAt(d, d[path[0] := Dir(sub)], path, q)
  {
    var after := d[path[0] := Dir(sub)];
    hide Lookup;
    LookupRoot(after);
    if q != [] {
      assert q <= path <==> q[0] == path[0] && q[1..] <= path[1..];
      if q[0] == path[0] {
        LookupUnder(after, q, sub);
        if q[0] in d {
          LookupUnder(d, q, was);
        } else {
          LookupCons(d, q);
          if q[1..] != [] {
            NothingThere(q[1..]);
          }
        }
      } else {
        LookupCons(d, q);
        LookupCons(after, q);
      }
    }
  }

  /** `create_new` succeeds exactly where nothing is, in a directory that is there; then the file is there, and all
      else is as it was. */
  lemma {:induction false} CreateNewMeans(d: Directory, path: Path, content: bytes)
    requires path != []
    ensures CreateNew(d, path, content).Ok? <==> IsDir(d, path[..|path| - 1]) && !Occupied(d, path)
    ensures CreateNew(d, path, content).Ok? ==> forall q: Path :: CreatedAt(d, path, content, q)
    decreases |path|
  {
    hide CreateNew, Lookup;
    var name := path[0];
    CreateNewCons(d, path, content);
    LookupRoot(d);
    LookupCons(d, path);
    if |path| == 1 {
      assert path[..0] == [];
      if name !in d {
        forall q: Path
          ensures CreatedAt(d, path, content, q)
        {
          CreatedHere(d, path, content, q);
        }
      }
    } else {
      LookupCons(d, path[..|path| - 1]);
      if name in d && d[name].Dir? {
        var was := d[name].entries;
        CreateNewMeans(was, path[1..], content);
        assert path[..|path| - 1][1..] == path[1..][..|path| - 2];
        LookupUnder(d, path[..|path| - 1], was);
        LookupUnder(d, path, was);
        if CreateNew(was, path[1..], content).Ok? {
          forall q: Path
            ensures CreatedAt(d, path, content, q)
          {
            CreatedBelow(d, was, CreateNew(was, path[1..], content).value, path, content, q);
          }
        }
      }
    }
  }

  lemma CreateNewCons(d: Directory, path: Path, content: bytes)
    requires path != []
    ensures var name := path[0];
            CreateNew(d, path, content)
              == if |path| == 1 then (if name in d then Err(Exists) else Ok(d[name := File(content)]))
                 else if name !in d then Err(NoParent)
                 else if d[name].File? then Err(NotADirectory)
                 else match CreateNew(d[name].entries, path[1..], content)
                      case Err(e) => Err(e)
                      case Ok(sub) => Ok(d[name := Dir(sub)])
  {
  }

  /** What the creation of a file at `path` means for the path `q`. */
  ghost predicate CreatedAt(d: Directory, path: Path, content: bytes, q: Path)
    requires path != [] && CreateNew(d, path, content).Ok?
  {
    var after := CreateNew(d, path, content).value;
    if q == path then Lookup(after, q) == Some(File(content))
    else if q <= path then IsDir(after, q) else Lookup(after, q) == Lookup(d, q)
  }

  lemma CreatedHere(d: Directory, path: Path, content: bytes, q: Path)
    requires |path| == 1 && path[0] !in d
    ensures CreateNew(d, path, content).Ok? && CreatedAt(d, path, content, q)
  {
    var after := d[path[0] := File(content)];
    hide Lookup;
    LookupRoot(after);
    if q != [] {
      LookupCons(d, q);
      LookupCons(after, q);
      assert q <= path <==> q == path;
    }
  }

  lemma CreatedBelow(d: Directory, was: Directory, sub: Directory, path: Path, content: bytes, q: Path)
    requires |path| > 1 && path[0] in d && d[path[0]] == Dir(was)
    requires CreateNew(was, path[1..], content) == Ok(sub) && (q != [] ==> CreatedAt(was, path[1..], content, q[1..]))
    ensures CreateNew(d, path, content).Ok? && CreatedAt(d, path, content, q)
  {
    var after := d[path[0] := Dir(sub)];
    hide Lookup;
    CreateNewCons(d, path, content);
    LookupRoot(after);
    if q != [] {
      assert q == path <==> q[0] == path[0] && q[1..] == path[1..];
      assert q <= path <==> q[0] == path[0] && q[1..] <= path[1..];
      if q[0] == path[0] {
        LookupUnder(after, q, sub);
        LookupUnder(d, q, was);
      } else {
        LookupCons(d, q);
        LookupCons(after, q);
      }
    }
  }

  // ----- a whole archive -----

  /** Every name at every depth is one that can only denote an entry of its directory. */
  ghost predicate SafeTree(d: Directory) {
    forall path: Path :: Occupied(d, path) ==> SafePath(path)
  }

  /** Whatever was there is there, files with the same bytes. */
  ghost predicate Grown(before: Directory, after: Directory) {
    && (forall path: Path :: IsFile(before, path) ==> Lookup(after, path) == Lookup(before, path))
    && (forall path: Path :: IsDir(before, path) ==> IsDir(after, path))
  }

  lemma PrefixIsSlice(q: Path, path: Path)
    ensures q <= path ==> |q| <= |path| && q == path[..|q|]
  {
  }

  lemma MakeDirsGrows(d: Directory, path: Path)
    requires SafePath(path) && SafeTree(d) && MakeDirs(d, path).Ok?
    ensures SafeTree(MakeDirs(d, path).value) && Grown(d, MakeDirs(d, path).value)
  {
    hide MakeDirs, Lookup, SafeComponent;
    MakeDirsMeans(d, path);
    var after := MakeDirs(d, path).value;
    forall q: Path
      ensures Occupied(after, q) ==> SafePath(q)
      ensures IsFile(d, q) ==> Lookup(after, q) == Lookup(d, q)
      ensures IsDir(d, q) ==> IsDir(after, q)
    {
      assert MadeAt(d, after, path, q) && (Occupied(d, q) ==> SafePath(q));
      PrefixIsSlice(q, path);
    }
  }

  lemma CreateNewGrows(d: Directory, path: Path, content: bytes)
    requires path != [] && SafePath(path) && SafeTree(d) && CreateNew(d, path, content).Ok?
    ensures SafeTree(CreateNew(d, path, content).value) && Grown(d, CreateNew(d, path, content).value)
  {
    hide CreateNew, Lookup, SafeComponent;
    CreateNewMeans(d, path, content);
    var after := CreateNew(d, path, content).value;
    var parent := path[..|path| - 1];
    forall q: Path
      ensures Occupied(after, q) ==> SafePath(q)
      ensures IsFile(d, q) ==> Lookup(after, q) == Lookup(d, q)
      ensures IsDir(d, q) ==> IsDir(after, q)
    {
      assert CreatedAt(d, path, content, q) && (Occupied(d, q) ==> SafePath(q));
      if IsFile(d, q) && q <= path && q != path {
        FileHasNothingBelow(d, q, parent);
      }
    }
  }

  /** Nothing lies below a file. */
  lemma {:induction false} FileHasNothingBelow(d: Directory, q: Path, path: Path)
    requires IsFile(d, q) && q <= path
    ensures q == path || !Occupied(d, path)
    decreases |q|
  {
    LookupCons(d, q);
    if |q| > 1 {
      LookupCons(d, path);
      FileHasNothingBelow(d[q[0]].entries, q[1..], path[1..]);
    } else if |path| > 1 {
      LookupCons(d, path);
    }
  }

  lemma GrownThen(a: Directory, b: Directory, c: Directory)
    requires Grown(a, b) && Grown(b, c)
    ensures Grown(a, c)
  {
    hide Lookup;
    forall path: Path | IsFile(a, path)
      ensures Lookup(c, path) == Lookup(a, path)
    {
      assert IsFile(b, path);
    }
  }

  lemma StageFileGrows(d: Directory, path: Path, content: bytes)
    requires path != [] && SafePath(path) && SafeTree(d) && StageFile(d, path, content).Ok?
    ensures SafeTree(StageFile(d, path, content).value) && Grown(d, StageFile(d, path, content).value)
  {
    hide MakeDirs, CreateNew, SafeTree, Grown, SafeComponent;
    MakeDirsGrows(d, path[..|path| - 1]);
    var made := MakeDirs(d, path[..|path| - 1]).value;
    CreateNewGrows(made, path, content);
    GrownThen(d, made, CreateNew(made, path, content).value);
  }

  lemma EntryGrows(data: bytes, st: State)
    requires st.pos <= |data| && st.total <= MAX_TRANSFER && SafeTree(st.staging)
    requires EntryF(data, st).Ok? && EntryF(data, st).value.More?
    ensures SafeTree(EntryF(data, st).value.next.staging) && Grown(st.staging, EntryF(data, st).value.next.staging)
  {
    hide HeadF, Relative, StageFile, MakeDirs, Behind, SafeTree, Grown, SafePath;
    GrownNothing(st.staging);
    var h := HeadF(data, st.pos).value;
    if !IsRootName(h.name) {
      RelativeIsSafe(h.name);
      var path := Relative(h.name).value;
      if IsDirectory(h.mode) {
        MakeDirsGrows(st.staging, path);
      } else if IsRegular(h.mode) && !IsMetadata(path[|path| - 1]) {
        StageFileGrows(st.staging, path, data[h.next..Min(h.next + h.size, |data|)]);
      }
    }
  }

  lemma GrownNothing(d: Directory)
    ensures Grown(d, d)
  {
  }

  lemma {:induction false} ExtractGrows(data: bytes, st: State, rounds: nat)
    requires st.pos <= |data| && st.total <= MAX_TRANSFER && SafeTree(st.staging) && ExtractF(data, st, rounds).Ok?
    ensures SafeTree(ExtractF(data, st, rounds).value.staging)
    ensures Grown(st.staging, ExtractF(data, st, rounds).value.staging)
    decreases rounds
  {
    hide EntryF, SafeTree, Grown;
    GrownNothing(st.staging);
    if EntryF(data, st).value.More? {
      var next := EntryF(data, st).value.next;
      EntryGrows(data, st);
      ExtractGrows(data, next, rounds - 1);
      GrownThen(st.staging, next.staging, ExtractF(data, st, rounds).value.staging);
    }
  }

  /** Whatever archive is accepted: every name at every depth of the staged tree is a plain component. */
  lemma StagedNamesAreSafe(data: bytes)
    requires ReceiveF(data).Ok?
    ensures SafeTree(ReceiveF(data).value.staging)
  {
    hide ExtractF, SafeTree;
    EmptyIsSafe();
    ExtractGrows(data, EMPTY, MAX_ENTRIES);
  }

  lemma EmptyIsSafe()
    ensures SafeTree(map[])
  {
    forall path: Path | Occupied(map[], path)
      ensures path == []
    {
      NothingThere(path);
    }
  }
}
