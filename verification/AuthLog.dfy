/** The history of the receive service: what was decided, accepted, granted and let through, and what a history
    in which every event is justified by the ones before it says about the uploads. */
module AuthLog {
  import opened Bytes

  /** A transfer is granted to an address within one receive window. */
  type Address = nat
  datatype Site = Site(window: nat, ip: Address)

  datatype Event =
    | Decided(ask: nat, accepted: bool)                                          // the user answered this Ask
    | Accepted(ask: nat, site: Site, links: bool, gated: bool, time: nat)        // its connection saw the approval
    | Granted(ask: nat, site: Site, time: nat)                                   // and entered a grant
    | LetThrough(site: Site, time: nat)                                          // an Upload used a grant

  datatype Topic = Decision(ask: nat) | Acceptance(ask: nat) | Grant(ask: nat) | Slot(site: Site)

  predicate About(e: Event, t: Topic) {
    match t
    case Decision(a) => e.Decided? && e.ask == a
    case Acceptance(a) => e.Accepted? && e.ask == a
    case Grant(a) => e.Granted? && e.ask == a
    case Slot(s) => (e.Granted? || e.LetThrough?) && e.site == s
  }

  /** The last event of a history on a topic. */
  function Last(log: seq<Event>, t: Topic): (r: Option<nat>)
    ensures r.Some? ==> r.value < |log| && About(log[r.value], t)
    ensures forall i :: (if r.Some? then r.value + 1 else 0) <= i < |log| ==> !About(log[i], t)
  {
    if log == [] then None
    else if About(log[|log| - 1], t) then Some(|log| - 1)
    else Last(log[..|log| - 1], t)
  }

  lemma LastAppend(log: seq<Event>, e: Event, t: Topic)
    ensures Last(log + [e], t) == if About(e, t) then Some(|log|) else Last(log, t)
  {
    assert (log + [e])[..|log|] == log;
  }

  /** The service's times, in milliseconds. */
  const GRANT_LIFE: nat := 120_000

  /** An event that the history before it justifies. */
  ghost predicate Justified(before: seq<Event>, e: Event) {
    match e
    case Decided(a, _) =>
      Last(before, Decision(a)).None?
    case Accepted(a, _, _, gated, _) =>
      && Last(before, Acceptance(a)).None?
      && (gated ==> Last(before, Decision(a)).Some? && before[Last(before, Decision(a)).value].accepted)
    case Granted(a, site, time) =>
      && Last(before, Grant(a)).None?
      && Last(before, Acceptance(a)).Some?
      && var i := Last(before, Acceptance(a)).value;
         before[i].site == site && !before[i].links && before[i].time == time
    case LetThrough(site, time) =>
      && Last(before, Slot(site)).Some?
      && var i := Last(before, Slot(site)).value;
         before[i].Granted? && before[i].time <= time < before[i].time + GRANT_LIFE
  }

  ghost predicate Sound(log: seq<Event>) {
    forall i :: 0 <= i < |log| ==> Justified(log[..i], log[i])
  }

  lemma SoundAppend(log: seq<Event>, e: Event)
    requires Sound(log) && Justified(log, e)
    ensures Sound(log + [e])
  {
    var longer := log + [e];
    forall i | 0 <= i < |longer|
      ensures Justified(longer[..i], longer[i])
    {
      if i < |log| {
        assert longer[..i] == log[..i];
      } else {
        assert longer[..i] == log;
      }
    }
  }

  /** The grant an Upload used, as an index into the history. */
  ghost function GrantOf(log: seq<Event>, i: nat): (r: nat)
    requires Sound(log) && i < |log| && log[i].LetThrough?
    ensures r < i && log[r].Granted? && log[r].site == log[i].site
  {
    assert Justified(log[..i], log[i]);
    Last(log[..i], Slot(log[i].site)).value
  }

  /** The acceptance a grant rests on. */
  ghost function AcceptanceOf(log: seq<Event>, g: nat): (r: nat)
    requires Sound(log) && g < |log| && log[g].Granted?
    ensures r < g && log[r].Accepted? && log[r].ask == log[g].ask
  {
    assert Justified(log[..g], log[g]);
    Last(log[..g], Acceptance(log[g].ask)).value
  }

  /** What the user decided that an acceptance rests on, in a window that asks the user. */
  ghost function DecisionOf(log: seq<Event>, c: nat): (r: nat)
    requires Sound(log) && c < |log| && log[c].Accepted? && log[c].gated
    ensures r < c && log[r].Decided? && log[r].ask == log[c].ask && log[r].accepted
  {
    assert Justified(log[..c], log[c]);
    Last(log[..c], Decision(log[c].ask)).value
  }

  /** The Ask behind an Upload that was let through. */
  ghost function AskOf(log: seq<Event>, i: nat): nat
    requires Sound(log) && i < |log| && log[i].LetThrough?
  {
    log[GrantOf(log, i)].ask
  }

  /** An Ask is decided, accepted and granted at most once each. */
  lemma OncePerAsk(log: seq<Event>, j: nat, t: Topic)
    requires Sound(log) && j < |log| && !t.Slot? && About(log[j], t)
    ensures forall i :: 0 <= i < j ==> !About(log[i], t)
  {
    assert Justified(log[..j], log[j]);
    forall i | 0 <= i < j
      ensures !About(log[i], t)
    {
      assert log[..j][i] == log[i];
    }
  }

  /** An Upload that was let through: the file Ask behind it came from the same address in the same window and was
      accepted before, less than 120 seconds ago; in a window that asks the user, the user had approved that very Ask
      before. */
  lemma UploadRestsOnAsk(log: seq<Event>, i: nat)
    requires Sound(log) && i < |log| && log[i].LetThrough?
    ensures var g := GrantOf(log, i); var c := AcceptanceOf(log, g);
            && c < g < i
            && log[c].ask == AskOf(log, i) && !log[c].links && log[c].site == log[i].site
            && log[c].time == log[g].time <= log[i].time < log[c].time + GRANT_LIFE
            && (log[c].gated ==> exists d :: 0 <= d < c && log[d] == Decided(AskOf(log, i), true))
  {
    var g := GrantOf(log, i);
    var c := AcceptanceOf(log, g);
    assert Justified(log[..i], log[i]) && Justified(log[..g], log[g]);
    if log[c].gated {
      var d := DecisionOf(log, c);
      assert log[d] == Decided(AskOf(log, i), true);
    }
  }

  /** And no Ask is behind two Uploads: a grant is spent by the Upload it lets through. */
  lemma UploadsUseDifferentAsks(log: seq<Event>, i: nat, j: nat)
    requires Sound(log) && i < j < |log| && log[i].LetThrough? && log[j].LetThrough?
    ensures AskOf(log, i) != AskOf(log, j)
  {
    var g, h := GrantOf(log, i), GrantOf(log, j);
    assert Justified(log[..j], log[j]) && log[..j][i] == log[i];
    assert log[i].site == log[j].site ==> i <= h;
    assert g != h;
    OncePerAsk(log, g, Grant(log[g].ask));
    OncePerAsk(log, h, Grant(log[h].ask));
  }
}
