/** Several receivers publishing into one folder at once (src/airdrop/storage.rs), interleaved with each other and with
    other programs at each rename. */
module Publishers {
  import opened Bytes
  import opened Tree
  import opened Publish

  /** A receiver publishing: what it has staged, which item it is at and the number it will try next. */
  datatype Publisher = Publisher(staging: Directory, current: Option<bytes>, number: nat, landed: map<bytes, bytes>)

  datatype World = World(dest: Directory, publishers: seq<Publisher>)

  datatype Action =
    | Pick(who: nat, name: bytes)          // turn to an item
    | TryRename(who: nat)                  // one rename
    | Create(name: bytes, node: Node)      // some other program adds an entry

  /** A publisher that met `U64_MAX` taken numbers gives up: it has no further step. */
  function Act(w: World, a: Action): Option<World> {
    match a
    case Create(name, node) => if name in w.dest then None else Some(w.(dest := w.dest[name := node]))
    case Pick(who, name) =>
      if who >= |w.publishers| || w.publishers[who].current.Some? || name !in w.publishers[who].staging then None
      else Some(w.(publishers := w.publishers[who := w.publishers[who].(current := Some(name), number := 1)]))
    case TryRename(who) =>
      if who >= |w.publishers| || w.publishers[who].current.None? then None
      else
        var p := w.publishers[who];
        var name := p.current.value;
        var target := Candidate(name, p.number);
        if name !in p.staging then None
        else if target in w.dest then
          if p.number >= U64_MAX then None
          else Some(w.(publishers := w.publishers[who := p.(number := p.number + 1)]))
        else Some(World(w.dest[target := p.staging[name]], w.publishers[who := Landed(p, name, target)]))
  }

  function Landed(p: Publisher, name: bytes, target: bytes): Publisher {
    Publisher(p.staging - {name}, None, 1, p.landed[name := target])
  }

  function Acts(w: World, actions: seq<Action>): Option<World>
    decreases |actions|
  {
    if actions == [] then Some(w)
    else match Act(w, actions[0]) case None => None case Some(next) => Acts(next, actions[1..])
  }

  /** The names other programs create in a run. */
  function Created(actions: seq<Action>): set<bytes> {
    if actions == [] then {}
    else (if actions[0].Create? then {actions[0].name} else {}) + Created(actions[1..])
  }

  // ----- nothing is overwritten, lost or made up -----

  /** What one publisher has done, against what it had staged at first: every item is still staged or lies, with its
      content, under a name made from its own. */
  ghost predicate Honest(dest: Directory, first: Directory, p: Publisher) {
    && Split(first, p.staging, p.landed)
    && (forall s :: s in p.landed ==>
          s in first && p.landed[s] in dest && dest[p.landed[s]] == first[s] && IsCandidate(s, p.landed[s]))
    && p.number >= 1
    && (p.current.Some? ==> p.current.value in p.staging && AllTaken(dest, p.current.value, p.number))
  }

  /** No two landings share a name, and none took a name that was there at the start. */
  ghost predicate LandingsApart(dest0: Directory, publishers: seq<Publisher>) {
    && (forall i, s :: 0 <= i < |publishers| && s in publishers[i].landed ==> publishers[i].landed[s] !in dest0)
    && (forall i, s, j, t ::
          0 <= i < |publishers| && 0 <= j < |publishers| && s in publishers[i].landed && t in publishers[j].landed
          && (i != j || s != t) ==>
            publishers[i].landed[s] != publishers[j].landed[t])
  }

  ghost predicate LandedAt(publishers: seq<Publisher>, k: bytes) {
    exists i, s :: 0 <= i < |publishers| && s in publishers[i].landed && publishers[i].landed[s] == k
  }

  /** Every entry was there at the start, was created by another program, or landed. */
  ghost predicate NothingElse(dest0: Directory, created: set<bytes>, w: World) {
    forall k :: k in w.dest ==> k in dest0 || k in created || LandedAt(w.publishers, k)
  }

  ghost predicate Inv(dest0: Directory, firsts: seq<Directory>, created: set<bytes>, w: World) {
    && |w.publishers| == |firsts|
    && Grew(dest0, w.dest)
    && (forall i :: 0 <= i < |firsts| ==> Honest(w.dest, firsts[i], w.publishers[i]))
    && LandingsApart(dest0, w.publishers)
    && NothingElse(dest0, created, w)
  }

  lemma InvHonest(dest0: Directory, firsts: seq<Directory>, created: set<bytes>, w: World, i: nat)
    requires Inv(dest0, firsts, created, w) && i < |firsts|
    ensures |w.publishers| == |firsts| && Honest(w.dest, firsts[i], w.publishers[i])
  {
    hide Honest, LandingsApart, NothingElse, Grew;
  }

  /** The search of an honest publisher has failed at most once per entry. */
  lemma SearchIsBounded(dest: Directory, first: Directory, p: Publisher)
    requires Honest(dest, first, p) && p.current.Some?
    ensures p.current.value in p.staging && 1 <= p.number <= |dest| + 1
    ensures Candidate(p.current.value, p.number) in dest ==> p.number <= |dest|
  {
    hide Candidate, Split, IsCandidate;
    Pigeonhole(dest, p.current.value, p.number);
    if Candidate(p.current.value, p.number) in dest {
      assert AllTaken(dest, p.current.value, p.number + 1);
      Pigeonhole(dest, p.current.value, p.number + 1);
    }
  }

  lemma GrewKeepsHonest(before: Directory, dest: Directory, first: Directory, p: Publisher)
    requires Grew(before, dest) && Honest(before, first, p)
    ensures Honest(dest, first, p)
  {
    hide IsCandidate, Split, Candidate;
  }

  lemma LandingKeepsApart(dest0: Directory, w: World, who: nat, name: bytes, target: bytes)
    requires who < |w.publishers| && LandingsApart(dest0, w.publishers) && target !in w.dest && Grew(dest0, w.dest)
    requires forall i, s :: 0 <= i < |w.publishers| && s in w.publishers[i].landed ==>
               w.publishers[i].landed[s] in w.dest
    ensures LandingsApart(dest0, w.publishers[who := Landed(w.publishers[who], name, target)])
  {
  }

  lemma LandingIsHonest(dest: Directory, first: Directory, p: Publisher)
    requires Honest(dest, first, p) && p.current.Some? && Candidate(p.current.value, p.number) !in dest
    ensures var name := p.current.value; var target := Candidate(name, p.number);
            Honest(dest[target := p.staging[name]], first, Landed(p, name, target))
  {
    hide Candidate, Split;
    var name := p.current.value;
    var target := Candidate(name, p.number);
    assert IsCandidate(name, target);
    hide IsCandidate;
    LandKeepsSplit(first, p.staging, p.landed, name, target);
  }

  lemma NothingElseKept(dest0: Directory, created: set<bytes>, w: World, who: nat, p: Publisher)
    requires who < |w.publishers| && NothingElse(dest0, created, w)
    requires forall s :: s in w.publishers[who].landed ==> s in p.landed && p.landed[s] == w.publishers[who].landed[s]
    ensures NothingElse(dest0, created, w.(publishers := w.publishers[who := p]))
  {
    var after := w.publishers[who := p];
    forall k | k in w.dest && LandedAt(w.publishers, k)
      ensures LandedAt(after, k)
    {
      var i, s :| 0 <= i < |w.publishers| && s in w.publishers[i].landed && w.publishers[i].landed[s] == k;
      assert s in after[i].landed && after[i].landed[s] == k;
    }
  }

  lemma LandingKeepsInv(dest0: Directory, firsts: seq<Directory>, created: set<bytes>, w: World, who: nat)
    requires Inv(dest0, firsts, created, w) && who < |w.publishers| && w.publishers[who].current.Some?
    requires Candidate(w.publishers[who].current.value, w.publishers[who].number) !in w.dest
    ensures Act(w, TryRename(who)).Some? && Inv(dest0, firsts, created, Act(w, TryRename(who)).value)
  {
    hide Candidate;
    var p := w.publishers[who];
    assert Honest(w.dest, firsts[who], p);
    var name := p.current.value;
    var target := Candidate(name, p.number);
    var w2 := Act(w, TryRename(who)).value;
    assert Grew(w.dest, w2.dest);
    LandingKeepsApart(dest0, w, who, name, target);
    LandingIsHonest(w.dest, firsts[who], p);
    assert name !in p.landed;
    NothingElseKept(dest0, created, w, who, Landed(p, name, target));
    assert name in w2.publishers[who].landed && w2.publishers[who].landed[name] == target;
    assert LandedAt(w2.publishers, target);
    hide Honest, LandingsApart, LandedAt;
    forall i | 0 <= i < |firsts|
      ensures Honest(w2.dest, firsts[i], w2.publishers[i])
    {
      if i != who {
        GrewKeepsHonest(w.dest, w2.dest, firsts[i], w.publishers[i]);
      }
    }
  }

  /** A publisher that takes another item or another number. */
  lemma MoveKeepsInv(dest0: Directory, firsts: seq<Directory>, created: set<bytes>, w: World, who: nat, p: Publisher)
    requires Inv(dest0, firsts, created, w) && who < |w.publishers| && Honest(w.dest, firsts[who], p)
    requires p.staging == w.publishers[who].staging && p.landed == w.publishers[who].landed
    ensures Inv(dest0, firsts, created, w.(publishers := w.publishers[who := p]))
  {
    NothingElseKept(dest0, created, w, who, p);
    hide Honest, NothingElse, Grew;
  }

  /** Every step keeps what is in the destination, and the invariant. */
  lemma ActKeepsInv(dest0: Directory, firsts: seq<Directory>, created: set<bytes>, w: World, a: Action)
    requires Inv(dest0, firsts, created, w) && Act(w, a).Some?
    ensures Inv(dest0, firsts, created + Created([a]), Act(w, a).value) && Grew(w.dest, Act(w, a).value.dest)
  {
    hide Inv, Honest, Candidate;
    assert [a][1..] == [] && Created([]) == {};
    InvSameLength(dest0, firsts, created, w);
    match a {
      case Create(name, node) =>
        assert created + Created([a]) == created + {name};
        CreateKeepsInv(dest0, firsts, created, w, name, node);
      case TryRename(who) =>
        assert created + Created([a]) == created;
        var p := w.publishers[who];
        InvHonest(dest0, firsts, created, w, who);
        if Candidate(p.current.value, p.number) !in w.dest {
          LandingKeepsInv(dest0, firsts, created, w, who);
        } else {
          NextNumberIsHonest(w.dest, firsts[who], p);
          MoveKeepsInv(dest0, firsts, created, w, who, p.(number := p.number + 1));
        }
      case Pick(who, name) =>
        assert created + Created([a]) == created;
        InvHonest(dest0, firsts, created, w, who);
        PickIsHonest(w.dest, firsts[who], w.publishers[who], name);
        MoveKeepsInv(dest0, firsts, created, w, who, w.publishers[who].(current := Some(name), number := 1));
    }
  }

  lemma NextNumberIsHonest(dest: Directory, first: Directory, p: Publisher)
    requires Honest(dest, first, p) && p.current.Some? && Candidate(p.current.value, p.number) in dest
    ensures Honest(dest, first, p.(number := p.number + 1))
  {
    hide Candidate, Split, IsCandidate;
  }

  lemma PickIsHonest(dest: Directory, first: Directory, p: Publisher, name: bytes)
    requires Honest(dest, first, p) && name in p.staging
    ensures Honest(dest, first, p.(current := Some(name), number := 1))
  {
    hide Candidate, Split, IsCandidate;
  }

  lemma CreateKeepsInv(dest0: Directory, firsts: seq<Directory>, created: set<bytes>, w: World, name: bytes, node: Node)
    requires Inv(dest0, firsts, created, w) && name !in w.dest
    ensures Inv(dest0, firsts, created + {name}, w.(dest := w.dest[name := node]))
  {
    var dest := w.dest[name := node];
    assert Grew(w.dest, dest);
    hide Honest, LandingsApart, LandedAt;
    forall i | 0 <= i < |firsts|
      ensures Honest(dest, firsts[i], w.publishers[i])
    {
      GrewKeepsHonest(w.dest, dest, firsts[i], w.publishers[i]);
    }
  }

  lemma {:induction false} ActsKeepInv(dest0: Directory, firsts: seq<Directory>, created: set<bytes>, w: World,
                                       actions: seq<Action>)
    requires Inv(dest0, firsts, created, w) && Acts(w, actions).Some?
    ensures Inv(dest0, firsts, created + Created(actions), Acts(w, actions).value)
    decreases |actions|
  {
    hide Inv, Act;
    if actions != [] {
      var next := Act(w, actions[0]).value;
      ActKeepsInv(dest0, firsts, created, w, actions[0]);
      ActsKeepInv(dest0, firsts, created + Created([actions[0]]), next, actions[1..]);
      assert [actions[0]][1..] == [] && Created([]) == {};
      assert created + Created([actions[0]]) + Created(actions[1..]) == created + Created(actions);
    } else {
      assert created + Created(actions) == created;
    }
  }

  /** The publishers before any of them has started. */
  function Starting(firsts: seq<Directory>): (r: seq<Publisher>)
    ensures |r| == |firsts| && forall i :: 0 <= i < |r| ==> r[i] == Publisher(firsts[i], None, 1, map[])
  {
    if firsts == [] then [] else [Publisher(firsts[0], None, 1, map[])] + Starting(firsts[1..])
  }

  lemma StartingInv(dest0: Directory, firsts: seq<Directory>)
    ensures Inv(dest0, firsts, {}, World(dest0, Starting(firsts)))
  {
  }

  /** Any number of receivers publishing at once, their renames interleaved with each other and with other programs
      adding entries: at every moment nothing that was in the destination at the start has changed, each staged item is
      still staged or lies in the destination under one name of its own, made from its own, every other entry was
      created by another program, and a receiver still looking for a name has failed no more often than there are
      entries. */
  lemma PublishersNeverCollide(dest0: Directory, firsts: seq<Directory>, actions: seq<Action>)
    requires Acts(World(dest0, Starting(firsts)), actions).Some?
    ensures var w := Acts(World(dest0, Starting(firsts)), actions).value;
            && Inv(dest0, firsts, Created(actions), w)
            && forall p :: p in w.publishers && p.current.Some? ==> p.number <= |w.dest| + 1
  {
    hide Inv, Honest, Act;
    StartingInv(dest0, firsts);
    ActsKeepInv(dest0, firsts, {}, World(dest0, Starting(firsts)), actions);
    assert {} + Created(actions) == Created(actions);
    var w := Acts(World(dest0, Starting(firsts)), actions).value;
    InvSameLength(dest0, firsts, Created(actions), w);
    forall p | p in w.publishers && p.current.Some?
      ensures p.number <= |w.dest| + 1
    {
      var i :| 0 <= i < |w.publishers| && w.publishers[i] == p;
      InvHonest(dest0, firsts, Created(actions), w, i);
      SearchIsBounded(w.dest, firsts[i], w.publishers[i]);
    }
  }

  // ----- and everything is placed -----

  function CreateCount(actions: seq<Action>): nat {
    if actions == [] then 0 else (if actions[0].Create? then 1 else 0) + CreateCount(actions[1..])
  }

  /** How many items are still staged, by all of them. */
  function Staged(publishers: seq<Publisher>): nat {
    if publishers == [] then 0 else |publishers[0].staging| + Staged(publishers[1..])
  }

  /** What a publisher may still do at most, in a world that never holds more than `n` entries and staged items. */
  function Weight(p: Publisher, n: nat): int {
    |p.staging| * (n + 3) - if p.current.Some? then p.number else 0
  }

  function Potential(publishers: seq<Publisher>, n: nat): int {
    if publishers == [] then 0 else Weight(publishers[0], n) + Potential(publishers[1..], n)
  }

  lemma {:induction false} SumsUpdate(publishers: seq<Publisher>, who: nat, p: Publisher, n: nat)
    requires who < |publishers|
    ensures Staged(publishers[who := p]) == Staged(publishers) - |publishers[who].staging| + |p.staging|
    ensures Potential(publishers[who := p], n) == Potential(publishers, n) - Weight(publishers[who], n) + Weight(p, n)
  {
    hide Weight;
    var after := publishers[who := p];
    if who == 0 {
      assert after[1..] == publishers[1..];
    } else {
      assert after[1..] == publishers[1..][who - 1 := p];
      SumsUpdate(publishers[1..], who - 1, p, n);
    }
  }

  /** In reach of the invariant a weight is not negative. */
  lemma WeightIsNatural(dest: Directory, first: Directory, p: Publisher, n: nat)
    requires Honest(dest, first, p) && |dest| <= n
    ensures Weight(p, n) >= 0 && (p.staging != map[] ==> |p.staging| >= 1)
  {
    hide Honest;
    if p.current.Some? {
      SearchIsBounded(dest, first, p);
      assert p.staging != map[];
      AtLeastOne(|p.staging|, n + 3);
    }
  }

  lemma AtLeastOne(k: nat, m: nat)
    requires k >= 1
    ensures k * m >= m
  {
  }

  lemma {:induction false} PotentialIsNatural(dest: Directory, firsts: seq<Directory>, publishers: seq<Publisher>,
                                              n: nat)
    requires |publishers| == |firsts| && |dest| <= n
    requires forall i :: 0 <= i < |firsts| ==> Honest(dest, firsts[i], publishers[i])
    ensures Potential(publishers, n) >= 0
    decreases |publishers|
  {
    hide Honest, Weight;
    if publishers != [] {
      WeightIsNatural(dest, firsts[0], publishers[0], n);
      forall i | 0 <= i < |firsts[1..]|
        ensures Honest(dest, firsts[1..][i], publishers[1..][i])
      {
        assert Honest(dest, firsts[i + 1], publishers[i + 1]);
      }
      PotentialIsNatural(dest, firsts[1..], publishers[1..], n);
    }
  }

  /** Each step of a publisher lowers the potential, and only other programs make the world larger. */
  lemma ActLowers(dest0: Directory, firsts: seq<Directory>, created: set<bytes>, w: World, a: Action, n: nat)
    requires Inv(dest0, firsts, created, w) && Act(w, a).Some? && |w.dest| + Staged(w.publishers) <= n
    ensures var w2 := Act(w, a).value;
            && |w2.dest| + Staged(w2.publishers) == |w.dest| + Staged(w.publishers) + (if a.Create? then 1 else 0)
            && Potential(w2.publishers, n) <= Potential(w.publishers, n) - (if a.Create? then 0 else 1)
  {
    hide Inv, Honest, Candidate, Weight;
    if !a.Create? {
      var p := w.publishers[a.who];
      var p2 := Act(w, a).value.publishers[a.who];
      assert a.who < |firsts| by {
        InvSameLength(dest0, firsts, created, w);
      }
      InvHonest(dest0, firsts, created, w, a.who);
      StagedPart(w.publishers, a.who);
      SumsUpdate(w.publishers, a.who, p2, n);
      if a.TryRename? {
        SearchIsBounded(w.dest, firsts[a.who], p);
        if Candidate(p.current.value, p.number) !in w.dest {
          assert p2.staging.Keys == p.staging.Keys - {p.current.value};
          LandingLowers(p, p2, n);
        } else {
          assert Weight(p2, n) == Weight(p, n) - 1 by {
            TryLowers(p, n);
          }
        }
      } else {
        PickLowers(p, a.name, n);
      }
    }
  }

  lemma InvSameLength(dest0: Directory, firsts: seq<Directory>, created: set<bytes>, w: World)
    requires Inv(dest0, firsts, created, w)
    ensures |w.publishers| == |firsts|
  {
  }

  lemma {:induction false} StagedPart(publishers: seq<Publisher>, who: nat)
    requires who < |publishers|
    ensures |publishers[who].staging| <= Staged(publishers)
  {
    if who > 0 {
      StagedPart(publishers[1..], who - 1);
    }
  }

  lemma LandingLowers(p: Publisher, p2: Publisher, n: nat)
    requires p.current.Some? && p2.current.None? && p.number <= n + 1
    requires |p.staging| >= 1 && |p2.staging| == |p.staging| - 1
    ensures Weight(p2, n) < Weight(p, n)
  {
    OneLess(|p.staging|, n + 3);
  }

  lemma TryLowers(p: Publisher, n: nat)
    requires p.current.Some?
    ensures Weight(p.(number := p.number + 1), n) == Weight(p, n) - 1
  {
  }

  lemma PickLowers(p: Publisher, name: bytes, n: nat)
    requires p.current.None?
    ensures Weight(p.(current := Some(name), number := 1), n) == Weight(p, n) - 1
  {
  }

  lemma OneLess(k: nat, m: nat)
    requires k >= 1
    ensures (k - 1) * m == k * m - m
  {
  }

  /** However the receivers and the other programs interleave, the receivers take a bounded number of steps in all. */
  lemma {:induction false} StepsAreBounded(dest0: Directory, firsts: seq<Directory>, created: set<bytes>, w: World,
                                           actions: seq<Action>, n: nat)
    requires Inv(dest0, firsts, created, w) && Acts(w, actions).Some?
    requires |w.dest| + Staged(w.publishers) + CreateCount(actions) <= n
    ensures |actions| - CreateCount(actions) <= Potential(w.publishers, n)
    decreases |actions|
  {
    hide Act, Inv, Potential, Staged;
    if actions == [] {
      InvPotential(dest0, firsts, created, w, n);
    } else {
      var next := Act(w, actions[0]).value;
      ActLowers(dest0, firsts, created, w, actions[0], n);
      ActKeepsInv(dest0, firsts, created, w, actions[0]);
      StepsAreBounded(dest0, firsts, created + Created([actions[0]]), next, actions[1..], n);
    }
  }

  /** As long as anything is staged, some receiver can take a step; numbers do not run out below `U64_MAX` entries. */
  lemma StagedCanMove(dest0: Directory, firsts: seq<Directory>, created: set<bytes>, w: World, who: nat)
    returns (a: Action)
    requires Inv(dest0, firsts, created, w) && who < |w.publishers| && w.publishers[who].staging != map[]
    requires |w.dest| < U64_MAX
    ensures !a.Create? && Act(w, a).Some?
  {
    hide Inv, Honest, Candidate;
    InvSameLength(dest0, firsts, created, w);
    InvHonest(dest0, firsts, created, w, who);
    var p := w.publishers[who];
    if p.current.Some? {
      SearchIsBounded(w.dest, firsts[who], p);
      a := TryRename(who);
    } else {
      var name :| name in p.staging;
      a := Pick(who, name);
    }
  }

  /** No receiver can take a step. */
  ghost predicate Finished(w: World) {
    forall a: Action {:trigger Act(w, a)} :: !a.Create? ==> Act(w, a).None?
  }

  lemma {:induction false} StagedIsEmpty(publishers: seq<Publisher>)
    requires forall i :: 0 <= i < |publishers| ==> publishers[i].staging == map[]
    ensures Staged(publishers) == 0
  {
    if publishers != [] {
      StagedIsEmpty(publishers[1..]);
    }
  }

  /** Everything that was staged lies in the destination, each item once, with its content, under a name of its own. */
  ghost predicate AllPlaced(dest0: Directory, firsts: seq<Directory>, w: World) {
    && |w.publishers| == |firsts|
    && (forall i :: 0 <= i < |firsts| ==>
          w.publishers[i].staging == map[] && w.publishers[i].landed.Keys == firsts[i].Keys
          && (forall s :: s in firsts[i] ==>
                w.publishers[i].landed[s] in w.dest && w.dest[w.publishers[i].landed[s]] == firsts[i][s]
                && IsCandidate(s, w.publishers[i].landed[s])))
    && LandingsApart(dest0, w.publishers)
  }

  lemma EmptyIsPlaced(dest0: Directory, firsts: seq<Directory>, created: set<bytes>, w: World)
    requires Inv(dest0, firsts, created, w) && forall i :: 0 <= i < |firsts| ==> w.publishers[i].staging == map[]
    ensures AllPlaced(dest0, firsts, w)
  {
    hide IsCandidate, LandingsApart, Candidate;
    forall i | 0 <= i < |firsts|
      ensures w.publishers[i].landed.Keys == firsts[i].Keys
    {
      assert Honest(w.dest, firsts[i], w.publishers[i]);
    }
    forall i | 0 <= i < |firsts|
      ensures forall s :: s in firsts[i] ==>
                w.publishers[i].landed[s] in w.dest && w.dest[w.publishers[i].landed[s]] == firsts[i][s]
                && IsCandidate(s, w.publishers[i].landed[s])
    {
      assert Honest(w.dest, firsts[i], w.publishers[i]);
    }
  }

  /** Every run that goes on until no receiver can take a step has placed every item of every receiver, and the
      destination holds those, what was there at the start and what other programs created, and nothing else. And no
      run keeps the receivers busy for more steps than their potential at the start. */
  lemma PublishersAlwaysPlace(dest0: Directory, firsts: seq<Directory>, actions: seq<Action>)
    requires Acts(World(dest0, Starting(firsts)), actions).Some?
    requires |dest0| + Staged(Starting(firsts)) + CreateCount(actions) < U64_MAX
    ensures var w := Acts(World(dest0, Starting(firsts)), actions).value;
            && Grew(dest0, w.dest) && NothingElse(dest0, Created(actions), w)
            && (Finished(w) <==> AllPlaced(dest0, firsts, w))
    ensures |actions| - CreateCount(actions)
         <= Potential(Starting(firsts), |dest0| + Staged(Starting(firsts)) + CreateCount(actions))
  {
    hide Inv, Act, Acts, Honest, AllPlaced, Finished, Staged, Potential, Grew, NothingElse, Created, CreateCount,
      Starting;
    var w0 := World(dest0, Starting(firsts));
    var w := Acts(w0, actions).value;
    StartingInv(dest0, firsts);
    PublishersNeverCollide(dest0, firsts, actions);
    StepsAreBounded(dest0, firsts, {}, w0, actions, |dest0| + Staged(Starting(firsts)) + CreateCount(actions));
    WorldGrowsByCreation(dest0, firsts, {}, w0, actions);
    InvGrew(dest0, firsts, Created(actions), w);
    if Finished(w) {
      FinishedIsPlaced(dest0, firsts, Created(actions), w);
    }
    if AllPlaced(dest0, firsts, w) {
      PlacedIsFinished(dest0, firsts, Created(actions), w);
    }
  }

  lemma InvGrew(dest0: Directory, firsts: seq<Directory>, created: set<bytes>, w: World)
    requires Inv(dest0, firsts, created, w)
    ensures Grew(dest0, w.dest) && NothingElse(dest0, created, w)
  {
    hide Honest, LandingsApart, NothingElse, Grew;
  }

  lemma FinishedIsPlaced(dest0: Directory, firsts: seq<Directory>, created: set<bytes>, w: World)
    requires Inv(dest0, firsts, created, w) && Finished(w) && |w.dest| < U64_MAX
    ensures AllPlaced(dest0, firsts, w)
  {
    hide Inv, Act, AllPlaced;
    InvSameLength(dest0, firsts, created, w);
    forall i | 0 <= i < |firsts|
      ensures w.publishers[i].staging == map[]
    {
      if w.publishers[i].staging != map[] {
        var a := StagedCanMove(dest0, firsts, created, w, i);
      }
    }
    EmptyIsPlaced(dest0, firsts, created, w);
  }

  lemma PlacedIsFinished(dest0: Directory, firsts: seq<Directory>, created: set<bytes>, w: World)
    requires Inv(dest0, firsts, created, w) && AllPlaced(dest0, firsts, w)
    ensures Finished(w)
  {
    hide Inv, Honest, LandingsApart, Candidate, IsCandidate;
    InvSameLength(dest0, firsts, created, w);
    forall a: Action {:trigger Act(w, a)} | !a.Create?
      ensures Act(w, a).None?
    {
      if a.who < |firsts| && w.publishers[a.who].current.Some? {
        InvHonest(dest0, firsts, created, w, a.who);
        SearchIsBounded(w.dest, firsts[a.who], w.publishers[a.who]);
      }
    }
  }

  lemma {:induction false} WorldGrowsByCreation(dest0: Directory, firsts: seq<Directory>, created: set<bytes>, w: World,
                                                actions: seq<Action>)
    requires Inv(dest0, firsts, created, w) && Acts(w, actions).Some?
    ensures var end := Acts(w, actions).value;
            |end.dest| + Staged(end.publishers) == |w.dest| + Staged(w.publishers) + CreateCount(actions)
    decreases |actions|
  {
    hide Act, Staged, Inv;
    if actions != [] {
      ActLowers(dest0, firsts, created, w, actions[0], |w.dest| + Staged(w.publishers));
      ActKeepsInv(dest0, firsts, created, w, actions[0]);
      WorldGrowsByCreation(dest0, firsts, created + Created([actions[0]]), Act(w, actions[0]).value, actions[1..]);
    }
  }

  /** And from every moment of every run the receivers, left alone, do get there. */
  lemma {:induction false} LeftAloneTheyFinish(dest0: Directory, firsts: seq<Directory>, created: set<bytes>, w: World,
                                               n: nat)
    returns (rest: seq<Action>)
    requires Inv(dest0, firsts, created, w) && |w.dest| + Staged(w.publishers) == n < U64_MAX
    ensures Acts(w, rest).Some? && AllPlaced(dest0, firsts, Acts(w, rest).value) && CreateCount(rest) == 0
    decreases Potential(w.publishers, n)
  {
    hide Act, Inv, AllPlaced, Staged, Potential, Created;
    InvSameLength(dest0, firsts, created, w);
    if i :| 0 <= i < |firsts| && w.publishers[i].staging != map[] {
      var a := StagedCanMove(dest0, firsts, created, w, i);
      var next := Act(w, a).value;
      OneStep(dest0, firsts, created, w, a, n);
      var others := LeftAloneTheyFinish(dest0, firsts, created + Created([a]), next, n);
      rest := [a] + others;
      StepThen(w, a, next, others);
    } else {
      EmptyIsPlaced(dest0, firsts, created, w);
      rest := [];
    }
  }

  lemma StepThen(w: World, a: Action, next: World, others: seq<Action>)
    requires Act(w, a) == Some(next) && !a.Create?
    ensures Acts(w, [a] + others) == Acts(next, others) && CreateCount([a] + others) == CreateCount(others)
  {
    hide Act;
    assert ([a] + others)[1..] == others;
  }

  lemma OneStep(dest0: Directory, firsts: seq<Directory>, created: set<bytes>, w: World, a: Action, n: nat)
    requires Inv(dest0, firsts, created, w) && |w.dest| + Staged(w.publishers) == n && !a.Create? && Act(w, a).Some?
    ensures var next := Act(w, a).value;
            && Inv(dest0, firsts, created + Created([a]), next) && |next.dest| + Staged(next.publishers) == n
            && 0 <= Potential(next.publishers, n) < Potential(w.publishers, n)
  {
    hide Act, Inv, Staged, Potential, Created;
    ActLowers(dest0, firsts, created, w, a, n);
    ActKeepsInv(dest0, firsts, created, w, a);
    InvPotential(dest0, firsts, created + Created([a]), Act(w, a).value, n);
  }

  lemma InvPotential(dest0: Directory, firsts: seq<Directory>, created: set<bytes>, w: World, n: nat)
    requires Inv(dest0, firsts, created, w) && |w.dest| <= n
    ensures Potential(w.publishers, n) >= 0
  {
    hide Honest, LandingsApart, NothingElse, Grew, Potential;
    PotentialIsNatural(w.dest, firsts, w.publishers, n);
  }
}
