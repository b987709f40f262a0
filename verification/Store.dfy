/** `store` of src/airdrop/archive.rs: all the files of a transfer, or none. */
module Store {
  import opened Bytes
  import opened SafeNames
  import FileNames
  import Radix
  import Utf8

  const HYPHEN: nat := 0x2d
  const MAX_TRIES := 1000

  datatype Entry = Entry(name: Text, content: bytes)

  datatype Error = EmptyName | TooManyCollisions | CannotWrite

  /** The name tried at a turn: `photo.jpg`, `photo-1.jpg`, ... */
  function Candidate(base: Text, turn: nat): Text {
    if turn == 0 then base
    else FileNames.Stem(base, DOT) + [HYPHEN] + Utf8.Codes(Radix.Digits(turn, 10)) + FileNames.Suffix(base, DOT)
  }

  /** What the candidates are: the number stands between the stem and the extension, or at the end of a name that has
      none. A safe name does not begin with a dot. */
  lemma CandidateShape(base: Text, stem: Text, ext: Text, turn: nat)
    ensures Candidate(base, 0) == base
    ensures turn >= 1 && stem != [] && DOT !in ext && base == stem + [DOT] + ext ==>
              Candidate(base, turn) == stem + [0x2d] + Utf8.Codes(Radix.Digits(turn, 10)) + [DOT] + ext
    ensures turn >= 1 && (forall j :: 0 < j < |base| ==> base[j] != DOT) ==>
              Candidate(base, turn) == base + [0x2d] + Utf8.Codes(Radix.Digits(turn, 10))
  {
    if stem != [] && DOT !in ext {
      FileNames.WithExtension(stem, ext, DOT);
    }
    if forall j :: 0 < j < |base| ==> base[j] != DOT {
      FileNames.WithoutExtension(base, DOT);
    }
  }

  /** A name that can only denote a visible file directly in the folder. */
  ghost predicate Plain(s: Text) {
    s != [] && s[0] != DOT && forall c :: c in s ==> !IsSeparator(c)
  }

  lemma {:induction false} DigitsPlain(n: nat)
    ensures forall c :: c in Radix.Digits(n, 10) ==> 0x30 <= c <= 0x39
    decreases n
  {
    if n >= 10 {
      DigitsPlain(n / 10);
    }
  }

  lemma CandidatePlain(base: Text, turn: nat)
    requires IsSafe(base)
    ensures Plain(Candidate(base, turn))
  {
    if turn > 0 {
      var stem, suffix := FileNames.Stem(base, DOT), FileNames.Suffix(base, DOT);
      var codes := Utf8.Codes(Radix.Digits(turn, 10));
      DigitsPlain(turn);
      forall c | c in codes
        ensures !IsSeparator(c)
      {
        var i :| 0 <= i < |codes| && codes[i] == c;
        assert Radix.Digits(turn, 10)[i] in Radix.Digits(turn, 10);
      }
      assert forall c :: c in stem || c in suffix ==> c in base;
      assert stem != [] && stem[0] == base[0];
    }
  }

  /** The names of the first turns are all taken. */
  ghost predicate AllTaken(taken: set<Text>, base: Text, turns: nat) {
    forall t: nat :: t < turns ==> Candidate(base, t) in taken
  }

  /** `name` is what the turn tries, it is free, and every earlier turn was not. */
  ghost predicate FirstFree(taken: set<Text>, base: Text, turn: nat, name: Text) {
    turn < MAX_TRIES && name == Candidate(base, turn) && name !in taken && AllTaken(taken, base, turn)
  }

  /** The search for a name from a turn on. `faulty` holds the names that cannot be written. */
  function PlaceFrom(taken: set<Text>, faulty: set<Text>, base: Text, turn: nat): (r: Result<Text, Error>)
    requires turn <= MAX_TRIES
    decreases MAX_TRIES - turn
  {
    if turn == MAX_TRIES then Err(TooManyCollisions)
    else if Candidate(base, turn) in faulty then Err(CannotWrite)
    else if Candidate(base, turn) in taken then PlaceFrom(taken, faulty, base, turn + 1)
    else Ok(Candidate(base, turn))
  }

  /** Where an entry goes in a folder whose names are `taken`. */
  function Place(taken: set<Text>, faulty: set<Text>, e: Entry): (r: Result<Text, Error>) {
    match SafeName(e.name) case None => Err(EmptyName) case Some(base) => PlaceFrom(taken, faulty, base, 0)
  }

  /** Where all the entries go, one after the other, or the first error. */
  function PlaceAll(taken: set<Text>, faulty: set<Text>, entries: seq<Entry>): (r: Result<seq<Text>, Error>)
    ensures r.Ok? ==> |r.value| == |entries|
  {
    if entries == [] then Ok([])
    else match PlaceAll(taken, faulty, entries[..|entries| - 1])
      case Err(e) => Err(e)
      case Ok(written) =>
        match Place(taken + Names(written), faulty, entries[|entries| - 1])
        case Err(e) => Err(e)
        case Ok(name) => Ok(written + [name])
  }

  function Names(written: seq<Text>): set<Text> {
    set c | c in written
  }

  class Folder {
    var files: map<Text, bytes>

    constructor (files: map<Text, bytes>)
      ensures this.files == files
    {
      this.files := files;
    }

    /** Write one entry under the first name not taken. */
    method StoreOne(e: Entry, faulty: set<Text>) returns (r: Result<Text, Error>)
      modifies this
      ensures r == Place(old(files).Keys, faulty, e)
      ensures files == if r.Ok? then old(files)[r.value := e.content] else old(files)
      ensures r.Ok? ==> r.value !in old(files) && Plain(r.value)
    {
      hide Candidate, Plain, SafeName, IsSafe;
      var base := SafeNameOf(e.name);
      if base.None? {
        return Err(EmptyName);
      }
      SafeNameIsSafe(e.name);
      for turn := 0 to MAX_TRIES
        invariant files == old(files)
        invariant PlaceFrom(files.Keys, faulty, base.value, 0) == PlaceFrom(files.Keys, faulty, base.value, turn)
      {
        var name := Candidate(base.value, turn);
        if name in faulty {
          return Err(CannotWrite);
        }
        if name !in files {
          CandidatePlain(base.value, turn);
          files := files[name := e.content];
          return Ok(name);
        }
      }
      r := Err(TooManyCollisions);
    }

    /** `store`. On success one new file per entry, in order, each under the first of its names that was free, and
        every earlier file as it was; on any error exactly the files of before. */
    method StoreAll(entries: seq<Entry>, faulty: set<Text>) returns (r: Result<seq<Text>, Error>)
      modifies this
      ensures r == PlaceAll(old(files).Keys, faulty, entries)
      ensures r.Err? ==> files == old(files)
      ensures r.Ok? ==> Stored(old(files), files, r.value, entries)
    {
      hide Stored, Plain, Candidate, PlaceAll, Place, Names;
      var written: seq<Text> := [];
      ghost var taken := files.Keys;
      NothingStored(files);
      NothingPlaced(taken, faulty);
      for k := 0 to |entries|
        invariant |written| == k && Stored(old(files), files, written, entries[..k])
        invariant PlaceAll(taken, faulty, entries[..k]) == Ok(written)
      {
        var before := files;
        StoredKeys(old(files), files, written, entries[..k]);
        PlacedOneMore(taken, faulty, entries, k, written);
        var one := StoreOne(entries[k], faulty);
        if one.Err? {
          PlacingStops(taken, faulty, entries, k + 1);
          Rollback(written, old(files), entries[..k]);
          return Err(one.error);
        }
        StoredOneMore(old(files), before, written, entries[..k], one.value, entries[k]);
        written := written + [one.value];
        Bytes.TakeOneMore(entries, k);
      }
      Bytes.TakeAll(entries);
      r := Ok(written);
    }

    /** Remove what was written. */
    method Rollback(written: seq<Text>, ghost first: map<Text, bytes>, ghost entries: seq<Entry>)
      requires |written| == |entries| && Stored(first, files, written, entries)
      modifies this
      ensures files == first
    {
      hide Names, Stored;
      ghost var stored := files;
      NoNames(written, files);
      for k := 0 to |written|
        invariant files == stored - Names(written[..k])
      {
        files := files - {written[k]};
        NamesOneMore(written, k);
      }
      Bytes.TakeAll(written);
      WithoutWritten(first, stored, written, entries);
    }
  }

  lemma NoNames(written: seq<Text>, files: map<Text, bytes>)
    ensures files - Names(written[..0]) == files
  {
  }

  lemma WithoutWritten(first: map<Text, bytes>, files: map<Text, bytes>, written: seq<Text>, entries: seq<Entry>)
    requires Stored(first, files, written, entries)
    ensures files - Names(written) == first
  {
    hide Plain;
  }

  lemma NamesOneMore(written: seq<Text>, k: nat)
    requires k < |written|
    ensures Names(written[..k + 1]) == Names(written[..k]) + {written[k]}
  {
    Bytes.TakeOneMore(written, k);
  }

  /** `files` is `first` and, under new and different names, the contents of the entries, in order. */
  ghost predicate Stored(first: map<Text, bytes>, files: map<Text, bytes>, written: seq<Text>, entries: seq<Entry>) {
    && |written| == |entries|
    && files.Keys == first.Keys + (set c | c in written)
    && (forall k :: k in first ==> files[k] == first[k])
    && (forall i :: 0 <= i < |written| ==>
        written[i] !in first && written[i] in files && files[written[i]] == entries[i].content && Plain(written[i]))
    && (forall i, j :: 0 <= i < j < |written| ==> written[i] != written[j])
  }

  lemma NothingStored(files: map<Text, bytes>)
    ensures Stored(files, files, [], [])
  {
  }

  lemma StoredOneMore(first: map<Text, bytes>, files: map<Text, bytes>, written: seq<Text>, entries: seq<Entry>,
                      name: Text, e: Entry)
    requires Stored(first, files, written, entries) && name !in files && Plain(name)
    ensures Stored(first, files[name := e.content], written + [name], entries + [e])
  {
    hide Plain;
    assert forall i :: 0 <= i < |written| ==> written[i] in files;
  }

  lemma StoredKeys(first: map<Text, bytes>, files: map<Text, bytes>, written: seq<Text>, entries: seq<Entry>)
    requires Stored(first, files, written, entries)
    ensures files.Keys == first.Keys + Names(written) && |files| == |first| + |written|
  {
    hide Plain;
    assert Names(written) !! first.Keys;
    DistinctCount(written);
    assert |first.Keys + Names(written)| == |first.Keys| + |Names(written)|;
  }

  lemma {:induction false} DistinctCount(written: seq<Text>)
    requires forall i, j :: 0 <= i < j < |written| ==> written[i] != written[j]
    ensures |Names(written)| == |written|
  {
    if written != [] {
      var n := |written| - 1;
      DistinctCount(written[..n]);
      assert written == written[..n] + [written[n]];
      assert Names(written) == Names(written[..n]) + {written[n]};
    }
  }

  // ----- when storing succeeds -----

  lemma NothingPlaced(taken: set<Text>, faulty: set<Text>)
    ensures PlaceAll(taken, faulty, []) == Ok([])
  {
  }

  lemma PlacedOneMore(taken: set<Text>, faulty: set<Text>, entries: seq<Entry>, k: nat, written: seq<Text>)
    requires k < |entries| && PlaceAll(taken, faulty, entries[..k]) == Ok(written)
    ensures PlaceAll(taken, faulty, entries[..k + 1]) ==
            match Place(taken + Names(written), faulty, entries[k])
            case Err(e) => Err(e)
            case Ok(name) => Ok(written + [name])
  {
    hide Place, Names;
    assert entries[..k + 1][..k] == entries[..k];
  }

  /** An error ends it. */
  lemma {:induction false} PlacingStops(taken: set<Text>, faulty: set<Text>, entries: seq<Entry>, k: nat)
    requires k <= |entries| && PlaceAll(taken, faulty, entries[..k]).Err?
    ensures PlaceAll(taken, faulty, entries) == PlaceAll(taken, faulty, entries[..k])
    decreases |entries|
  {
    hide Place, Names;
    if k == |entries| {
      Bytes.TakeAll(entries);
    } else {
      var shorter := entries[..|entries| - 1];
      assert shorter[..k] == entries[..k];
      PlacingStops(taken, faulty, shorter, k);
    }
  }

  /** Every name of the first turns is taken, and none of them is one that cannot be written. */
  ghost predicate AllTried(taken: set<Text>, faulty: set<Text>, base: Text, turns: nat) {
    AllTaken(taken, base, turns) && forall t: nat :: t < turns ==> Candidate(base, t) !in faulty
  }

  /** The turn the search ends at. */
  ghost predicate Decides(taken: set<Text>, faulty: set<Text>, base: Text, turn: nat) {
    AllTried(taken, faulty, base, turn) && (Candidate(base, turn) in faulty || Candidate(base, turn) !in taken)
  }

  lemma {:induction false} PlaceFromMeans(taken: set<Text>, faulty: set<Text>, base: Text, turn: nat)
    returns (last: nat)
    requires turn <= MAX_TRIES && AllTried(taken, faulty, base, turn)
    ensures turn <= last <= MAX_TRIES && AllTried(taken, faulty, base, last)
    ensures last == MAX_TRIES || Candidate(base, last) in faulty || Candidate(base, last) !in taken
    ensures PlaceFrom(taken, faulty, base, turn) ==
            if last == MAX_TRIES then Err(TooManyCollisions)
            else if Candidate(base, last) in faulty then Err(CannotWrite) else Ok(Candidate(base, last))
    decreases MAX_TRIES - turn
  {
    hide Candidate;
    if turn == MAX_TRIES || Candidate(base, turn) in faulty || Candidate(base, turn) !in taken {
      last := turn;
    } else {
      last := PlaceFromMeans(taken, faulty, base, turn + 1);
    }
  }

  /** The outcome for one entry, exactly: the first of its names that is free or cannot be written decides. */
  lemma PlaceMeans(taken: set<Text>, faulty: set<Text>, e: Entry)
    ensures Place(taken, faulty, e) == Err(EmptyName) <==> SafeName(e.name).None?
    ensures SafeName(e.name).Some? ==>
              var base := SafeName(e.name).value;
              && (Place(taken, faulty, e) == Err(TooManyCollisions) <==> AllTried(taken, faulty, base, MAX_TRIES))
              && (Place(taken, faulty, e) == Err(CannotWrite) <==>
                    exists t :: 0 <= t < MAX_TRIES && AllTried(taken, faulty, base, t) && Candidate(base, t) in faulty)
              && (Place(taken, faulty, e).Ok? <==>
                    exists t :: FirstFree(taken, base, t, Candidate(base, t)) && AllTried(taken, faulty, base, t)
                                && Candidate(base, t) !in faulty)
  {
    hide Candidate, SafeName, PlaceFrom;
    if SafeName(e.name).Some? {
      var base := SafeName(e.name).value;
      var last := PlaceFromMeans(taken, faulty, base, 0);
      FirstDecides(taken, faulty, base, last);
      assert last < MAX_TRIES ==> Decides(taken, faulty, base, last);
      if last < MAX_TRIES && Candidate(base, last) !in faulty {
        assert FirstFree(taken, base, last, Candidate(base, last));
      }
    }
  }

  /** No other turn stops the search. */
  lemma FirstDecides(taken: set<Text>, faulty: set<Text>, base: Text, last: nat)
    requires last <= MAX_TRIES && AllTried(taken, faulty, base, last)
    requires last == MAX_TRIES || Candidate(base, last) in faulty || Candidate(base, last) !in taken
    ensures forall t: nat :: t < MAX_TRIES && Decides(taken, faulty, base, t) ==> t == last
    ensures AllTried(taken, faulty, base, MAX_TRIES) ==> last == MAX_TRIES
  {
    hide Candidate;
    forall t: nat | t < MAX_TRIES && Decides(taken, faulty, base, t)
      ensures t == last
    {
      assert t < last ==> Candidate(base, t) in taken && Candidate(base, t) !in faulty;
      assert last < t ==> Candidate(base, last) in taken && Candidate(base, last) !in faulty;
    }
  }

  lemma CandidateLength(base: Text, turn: nat)
    ensures |Candidate(base, turn)| == if turn == 0 then |base| else |base| + 1 + |Radix.Digits(turn, 10)|
  {
    hide FileNames.SplitAt;
    assert |FileNames.Stem(base, DOT)| + |FileNames.Suffix(base, DOT)| == |base|;
  }

  /** Different turns try different names. */
  lemma CandidateInjective(base: Text, m: nat, n: nat)
    requires Candidate(base, m) == Candidate(base, n)
    ensures m == n
  {
    hide FileNames.Stem, FileNames.Suffix;
    CandidateLength(base, m);
    CandidateLength(base, n);
    if m != 0 && n != 0 {
      var s, a, b := |FileNames.Stem(base, DOT)| + 1, Radix.Digits(m, 10), Radix.Digits(n, 10);
      assert Candidate(base, m)[s..s + |a|] == Utf8.Codes(a) && Candidate(base, n)[s..s + |b|] == Utf8.Codes(b);
      SameCodes(a, b);
      Radix.DigitsInjective(m, n, 10);
    }
  }

  lemma SameCodes(a: bytes, b: bytes)
    requires Utf8.Codes(a) == Utf8.Codes(b)
    ensures a == b
  {
    hide Utf8.Codes;
    forall i | 0 <= i < |a|
      ensures a[i] == b[i]
    {
      assert Utf8.Codes(a)[i] == Utf8.Codes(b)[i];
    }
  }

  function Tried(base: Text, turns: nat): set<Text> {
    if turns == 0 then {} else Tried(base, turns - 1) + {Candidate(base, turns - 1)}
  }

  lemma {:induction false} TriedCount(base: Text, turns: nat)
    ensures |Tried(base, turns)| == turns
    ensures forall c :: c in Tried(base, turns) ==> exists t :: 0 <= t < turns && c == Candidate(base, t)
  {
    hide Candidate;
    if turns > 0 {
      TriedCount(base, turns - 1);
      if Candidate(base, turns - 1) in Tried(base, turns - 1) {
        var t :| 0 <= t < turns - 1 && Candidate(base, turns - 1) == Candidate(base, t);
        CandidateInjective(base, t, turns - 1);
      }
    }
  }

  /** A folder of fewer than a thousand files always has a free name. */
  lemma FewFilesHaveRoom(taken: set<Text>, base: Text)
    requires |taken| < MAX_TRIES
    ensures !AllTaken(taken, base, MAX_TRIES)
  {
    hide Candidate, Tried;
    TriedCount(base, MAX_TRIES);
    if AllTaken(taken, base, MAX_TRIES) {
      SubsetSize(Tried(base, MAX_TRIES), taken);
    }
  }

  /** Storing succeeds exactly when every entry, in turn, finds a place. */
  lemma {:induction false} StoringSucceeds(taken: set<Text>, faulty: set<Text>, entries: seq<Entry>)
    ensures PlaceAll(taken, faulty, entries).Ok? <==>
            forall k :: 0 <= k < |entries| && PlaceAll(taken, faulty, entries[..k]).Ok? ==>
              Place(taken + Names(PlaceAll(taken, faulty, entries[..k]).value), faulty, entries[k]).Ok?
  {
    hide Place, Names, PlaceAll;
    forall k | 0 <= k < |entries| && PlaceAll(taken, faulty, entries[..k]).Ok?
      ensures Place(taken + Names(PlaceAll(taken, faulty, entries[..k]).value), faulty, entries[k]).Err? ==>
                PlaceAll(taken, faulty, entries).Err?
    {
      PlacedOneMore(taken, faulty, entries, k, PlaceAll(taken, faulty, entries[..k]).value);
      if PlaceAll(taken, faulty, entries[..k + 1]).Err? {
        PlacingStops(taken, faulty, entries, k + 1);
      }
    }
    if PlaceAll(taken, faulty, entries).Err? {
      FirstFailure(taken, faulty, entries);
    }
  }

  lemma {:induction false} FirstFailure(taken: set<Text>, faulty: set<Text>, entries: seq<Entry>)
    requires PlaceAll(taken, faulty, entries).Err?
    ensures exists k :: 0 <= k < |entries| && PlaceAll(taken, faulty, entries[..k]).Ok?
              && Place(taken + Names(PlaceAll(taken, faulty, entries[..k]).value), faulty, entries[k]).Err?
    decreases |entries|
  {
    hide Place, Names;
    var n := |entries| - 1;
    var shorter := entries[..n];
    if PlaceAll(taken, faulty, shorter).Err? {
      FirstFailure(taken, faulty, shorter);
      var k :| 0 <= k < n && PlaceAll(taken, faulty, shorter[..k]).Ok?
        && Place(taken + Names(PlaceAll(taken, faulty, shorter[..k]).value), faulty, shorter[k]).Err?;
      assert shorter[..k] == entries[..k] && shorter[k] == entries[k];
    }
  }

  /** Entries with usable names, in a folder that has room for them below a thousand files and where everything can be
      written, are all stored. */
  lemma {:induction false} StoringSmallFolders(taken: set<Text>, entries: seq<Entry>)
    requires |taken| + |entries| <= MAX_TRIES && forall e :: e in entries ==> SafeName(e.name).Some?
    ensures PlaceAll(taken, {}, entries).Ok?
    decreases |entries|
  {
    hide Place, SafeName, Candidate;
    if entries != [] {
      var n := |entries| - 1;
      var shorter := entries[..n];
      StoringSmallFolders(taken, shorter);
      var written := PlaceAll(taken, {}, shorter).value;
      NamesCount(written);
      var now := taken + Names(written);
      assert |now| <= |taken| + n by {
        assert now == taken + (Names(written) - taken);
        SubsetSize(Names(written) - taken, Names(written));
      }
      assert entries[n] in entries;
      FewFilesHaveRoom(now, SafeName(entries[n].name).value);
      NoFaults(now, entries[n]);
    }
  }

  lemma {:induction false} NamesCount(written: seq<Text>)
    ensures |Names(written)| <= |written|
  {
    if written != [] {
      var n := |written| - 1;
      NamesCount(written[..n]);
      assert written == written[..n] + [written[n]];
      assert Names(written) == Names(written[..n]) + {written[n]};
    }
  }

  lemma NoFaults(taken: set<Text>, e: Entry)
    requires SafeName(e.name).Some? && !AllTaken(taken, SafeName(e.name).value, MAX_TRIES)
    ensures Place(taken, {}, e).Ok?
  {
    hide Candidate, SafeName, PlaceFrom;
    var last := PlaceFromMeans(taken, {}, SafeName(e.name).value, 0);
  }
}
