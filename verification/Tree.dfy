/** A directory as a finite map, and the file-system calls the receiver makes in its staging directory. */
module Tree {
  import opened Bytes
  import opened Cpio
  import opened Paths

  datatype Node = File(content: bytes) | Dir(entries: map<bytes, Node>)

  type Directory = map<bytes, Node>

  /** The node at a path; the empty path is the directory itself. */
  function Lookup(d: Directory, path: Path): (r: Option<Node>)
    decreases |path|
  {
    if path == [] then Some(Dir(d))
    else if path[0] !in d then None
    else if |path| == 1 then Some(d[path[0]])
    else match d[path[0]]
      case File(_) => None
      case Dir(sub) => Lookup(sub, path[1..])
  }

  /** `create_dir_all`: make the directory and every missing one above it. */
  function MakeDirs(d: Directory, path: Path): (r: Result<Directory, Error>)
    decreases |path|
  {
    if path == [] then Ok(d)
    else
      var name := path[0];
      if name in d && d[name].File? then Err(NotADirectory)
      else
        match MakeDirs(if name in d then d[name].entries else map[], path[1..])
        case Err(e) => Err(e)
        case Ok(sub) => Ok(d[name := Dir(sub)])
  }

  /** `create_new`: put a new file where nothing is, in a directory that is there. */
  function CreateNew(d: Directory, path: Path, content: bytes): (r: Result<Directory, Error>)
    requires path != []
    decreases |path|
  {
    var name := path[0];
    if |path| == 1 then
      if name in d then Err(Exists) else Ok(d[name := File(content)])
    else if name !in d then Err(NoParent)
    else match d[name]
      case File(_) => Err(NotADirectory)
      case Dir(sub) =>
        match CreateNew(sub, path[1..], content)
        case Err(e) => Err(e)
        case Ok(sub2) => Ok(d[name := Dir(sub2)])
  }

  /** The directory with `node` put at a path whose parent is a directory. */
  function Put(d: Directory, path: Path, node: Node): (r: Directory)
    requires path != []
    requires Lookup(d, path[..|path| - 1]).Some? && Lookup(d, path[..|path| - 1]).value.Dir?
    decreases |path|
  {
    var name := path[0];
    if |path| == 1 then d[name := node]
    else
      ParentBelow(d, path);
      d[name := Dir(Put(d[name].entries, path[1..], node))]
  }

  /** The parent of a longer path lies below its first component. */
  lemma ParentBelow(d: Directory, path: Path)
    requires |path| > 1 && Lookup(d, path[..|path| - 1]).Some? && Lookup(d, path[..|path| - 1]).value.Dir?
    ensures path[0] in d && d[path[0]].Dir?
    ensures Lookup(d[path[0]].entries, path[1..][..|path| - 2]) == Lookup(d, path[..|path| - 1])
  {
    var parent := path[..|path| - 1];
    assert parent[0] == path[0] && parent[1..] == path[1..][..|path| - 2];
  }

  /** A path is free in its existing parent directory. */
  predicate Free(d: Directory, path: Path) {
    && path != []
    && var parent := Lookup(d, path[..|path| - 1]);
    && parent.Some? && parent.value.Dir?
    && path[|path| - 1] !in parent.value.entries
  }

  /** Making a directory at a free path adds exactly an empty one there. */
  lemma {:induction false} MakeDirsFresh(d: Directory, path: Path)
    requires Free(d, path)
    ensures MakeDirs(d, path) == Ok(Put(d, path, Dir(map[])))
    decreases |path|
  {
    if |path| > 1 {
      ParentBelow(d, path);
      assert path[1..][|path| - 2] == path[|path| - 1];
      MakeDirsFresh(d[path[0]].entries, path[1..]);
    } else {
      assert path[..0] == [] && path[1..] == [];
      assert MakeDirs(map[], path[1..]) == Ok(map[]);
    }
  }

  /** Making a directory that is there changes nothing. */
  lemma {:induction false} MakeDirsThere(d: Directory, path: Path)
    requires Lookup(d, path).Some? && Lookup(d, path).value.Dir?
    ensures MakeDirs(d, path) == Ok(d)
    decreases |path|
  {
    if path != [] {
      if |path| == 1 {
        assert path[1..] == [];
      }
      MakeDirsThere(d[path[0]].entries, path[1..]);
      assert d[path[0] := Dir(d[path[0]].entries)] == d;
    }
  }

  /** Creating a file at a free path adds exactly that file. */
  lemma {:induction false} CreateNewFresh(d: Directory, path: Path, content: bytes)
    requires Free(d, path)
    ensures CreateNew(d, path, content) == Ok(Put(d, path, File(content)))
    decreases |path|
  {
    if |path| > 1 {
      ParentBelow(d, path);
      assert path[1..][|path| - 2] == path[|path| - 1];
      CreateNewFresh(d[path[0]].entries, path[1..], content);
    } else {
      assert path[..0] == [];
    }
  }

  /** What was put is found, and its parent otherwise keeps its entries. */
  lemma {:induction false} LookupPut(d: Directory, path: Path, node: Node)
    requires path != [] && Lookup(d, path[..|path| - 1]).Some? && Lookup(d, path[..|path| - 1]).value.Dir?
    ensures Lookup(Put(d, path, node), path) == Some(node)
    ensures var parent := path[..|path| - 1];
            Lookup(Put(d, path, node), parent) == Some(Dir(Lookup(d, parent).value.entries[path[|path| - 1] := node]))
    decreases |path|
  {
    if |path| > 1 {
      ParentBelow(d, path);
      LookupPut(d[path[0]].entries, path[1..], node);
      var parent := path[..|path| - 1];
      assert parent[0] == path[0] && parent[1..] == path[1..][..|path| - 2];
      assert path[1..][|path| - 2] == path[|path| - 1];
      if |path| == 2 {
        assert parent[1..] == [] && path[1..][..0] == [];
      }
    } else {
      assert path[..0] == [];
    }
  }

  /** Putting twice at one path keeps the second node. */
  lemma {:induction false} PutPut(d: Directory, path: Path, a: Node, b: Node)
    requires path != [] && Lookup(d, path[..|path| - 1]).Some? && Lookup(d, path[..|path| - 1]).value.Dir?
    ensures Lookup(Put(d, path, a), path[..|path| - 1]).Some? && Lookup(Put(d, path, a), path[..|path| - 1]).value.Dir?
    ensures Put(Put(d, path, a), path, b) == Put(d, path, b)
    decreases |path|
  {
    LookupPut(d, path, a);
    if |path| > 1 {
      ParentBelow(d, path);
      ParentBelow(Put(d, path, a), path);
      PutPut(d[path[0]].entries, path[1..], a, b);
    }
  }

  /** Putting below a directory is putting that directory with one more entry. */
  lemma {:induction false} PutBelow(d: Directory, path: Path, name: bytes, node: Node)
    requires path != [] && Lookup(d, path).Some? && Lookup(d, path).value.Dir?
    requires Lookup(d, path[..|path| - 1]).Some? && Lookup(d, path[..|path| - 1]).value.Dir?
    ensures (path + [name])[..|path|] == path
    ensures Put(d, path + [name], node) == Put(d, path, Dir(Lookup(d, path).value.entries[name := node]))
    decreases |path|
  {
    var longer := path + [name];
    assert longer[..|path|] == path;
    ParentBelow(d, longer);
    if |path| > 1 {
      ParentBelow(d, path);
      assert longer[1..] == path[1..] + [name];
      PutBelow(d[path[0]].entries, path[1..], name, node);
    } else {
      assert longer[1..] == [name] && path[..0] == [];
    }
  }
}
