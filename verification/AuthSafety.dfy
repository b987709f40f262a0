/** What every reachable state of the receive service keeps, whatever the interleaving. */
module AuthSafety {
  import opened Bytes
  import opened AuthLog
  import opened Sessions
  import opened Daemon
  import opened Authorization

  // ----- the invariant, part by part -----

  ghost predicate Small(win: Window) {
    && |win.grants| <= MAX_GRANTS && |win.tasks| <= MAX_TASKS && |win.queue| <= CHANNEL
    && (!win.open || !win.gated ==> win.queue == [] && win.hand.None?)
  }

  ghost predicate Sized(windows: seq<Window>) {
    forall k :: 0 <= k < |windows| ==> Small(windows[k])
  }

  /** The senders a window holds are where they are said to be. */
  ghost predicate OwnedBy(win: Window, k: nat, asks: seq<Ask>) {
    && (forall i :: 0 <= i < |win.queue| ==> win.queue[i] < |asks| && asks[win.queue[i]].sender == Queued(k))
    && (forall i, j :: 0 <= i < j < |win.queue| ==> win.queue[i] < win.queue[j])
    && (win.hand.Some? ==> win.hand.value < |asks| && asks[win.hand.value].sender == InHand(k))
  }

  ghost predicate Owned(windows: seq<Window>, pending: Option<nat>, asks: seq<Ask>) {
    && (forall k :: 0 <= k < |windows| ==> OwnedBy(windows[k], k, asks))
    && (pending.Some? ==> pending.value < |asks| && asks[pending.value].sender.Shown?)
  }

  ghost predicate ConnPlaced(conns: seq<Connection>, c: nat, windows: seq<Window>, asks: seq<Ask>)
    requires c < |conns|
  {
    var conn := conns[c];
    && conn.site.window < |windows|
    && (conn.at.Deciding? ==>
          conn.at.ask < |asks| && asks[conn.at.ask].conn == c && windows[conn.site.window].gated)
    && (conn.at.Closed? || windows[conn.site.window].open)
  }

  ghost predicate Placed(conns: seq<Connection>, windows: seq<Window>, asks: seq<Ask>) {
    forall c :: 0 <= c < |conns| ==> ConnPlaced(conns, c, windows, asks)
  }

  /** What was decided about an Ask was sent to its connection, and nothing else lets it be accepted. */
  ghost predicate AskLogged(asks: seq<Ask>, log: seq<Event>, a: nat) {
    && (if a < |asks| && asks[a].sender.Sent? then
          var d := Last(log, Decision(a));
          d.Some? && log[d.value].accepted == asks[a].sender.accepted
        else Last(log, Decision(a)).None?)
    && ((a < |asks| && Acceptable(asks[a].sender)) || Last(log, Acceptance(a)).None?)
    && (a >= |asks| ==> Last(log, Grant(a)).None?)
  }

  predicate Acceptable(s: Sender) {
    s == Sent(true) || s.Absent?
  }

  ghost predicate ConnLogged(conn: Connection, log: seq<Event>) {
    conn.at.Deciding? ==> Last(log, Acceptance(conn.at.ask)).None? && Last(log, Grant(conn.at.ask)).None?
  }

  ghost predicate GrantLogged(grants: Grants, k: nat, ip: Address, log: seq<Event>, now: nat) {
    ip in grants ==>
      var i := Last(log, Slot(Site(k, ip)));
      i.Some? && log[i.value].Granted? && log[i.value].time == grants[ip] <= now
  }

  ghost predicate AsksLogged(asks: seq<Ask>, log: seq<Event>) {
    forall a: nat :: AskLogged(asks, log, a)
  }

  ghost predicate ConnsLogged(conns: seq<Connection>, log: seq<Event>) {
    forall c :: 0 <= c < |conns| ==> ConnLogged(conns[c], log)
  }

  ghost predicate GrantsLogged(windows: seq<Window>, log: seq<Event>, now: nat) {
    forall k: nat, ip: Address :: k < |windows| ==> GrantLogged(windows[k].grants, k, ip, log, now)
  }

  /** An acceptance says truly whether its window asks the user. */
  ghost predicate GatesLogged(windows: seq<Window>, log: seq<Event>) {
    forall i :: 0 <= i < |log| && log[i].Accepted? ==>
      log[i].site.window < |windows| && log[i].gated == windows[log[i].site.window].gated
  }

  /** Every window a job serves asks the user. */
  ghost predicate JobsServe(jobs: seq<Job>, windows: seq<Window>) {
    forall j :: 0 <= j < |jobs| && jobs[j].Open? ==> jobs[j].window < |windows| && windows[jobs[j].window].gated
  }

  ghost predicate Inv(w: World) {
    && OneJob(w.control)
    && JobsServe(w.control.jobs, w.windows)
    && Sized(w.windows)
    && Owned(w.windows, w.control.pending, w.asks)
    && Placed(w.conns, w.windows, w.asks)
    && Sound(w.log)
    && AsksLogged(w.asks, w.log)
    && ConnsLogged(w.conns, w.log)
    && GrantsLogged(w.windows, w.log, w.now)
    && GatesLogged(w.windows, w.log)
  }

  lemma LastsAppend(log: seq<Event>, e: Event)
    ensures forall t :: Last(log + [e], t) == if About(e, t) then Some(|log|) else Last(log, t)
  {
    forall t
      ensures Last(log + [e], t) == if About(e, t) then Some(|log|) else Last(log, t)
    {
      LastAppend(log, e, t);
    }
  }

  // ----- the parts under the changes the steps make -----

  /** No connection changes but those that close, as all of a closing window's do. */
  lemma PlacesKeep(w: World, after: World)
    requires Placed(w.conns, w.windows, w.asks)
    requires |after.conns| == |w.conns| && |after.windows| >= |w.windows| && |after.asks| >= |w.asks|
    requires forall c :: 0 <= c < |w.conns| ==>
               after.conns[c] == w.conns[c] || after.conns[c] == w.conns[c].(at := Closed)
    requires forall a :: 0 <= a < |w.asks| ==> after.asks[a].conn == w.asks[a].conn
    requires forall k :: 0 <= k < |w.windows| ==> after.windows[k].gated == w.windows[k].gated
    requires forall k :: 0 <= k < |w.windows| && w.windows[k].open && !after.windows[k].open ==>
               forall c :: 0 <= c < |w.conns| && w.conns[c].site.window == k ==> after.conns[c].at.Closed?
    ensures Placed(after.conns, after.windows, after.asks)
  {
    forall c | 0 <= c < |w.conns|
      ensures ConnPlaced(after.conns, c, after.windows, after.asks)
    {
      assert ConnPlaced(w.conns, c, w.windows, w.asks);
    }
  }

  /** Decision channels are dropped undecided. */
  lemma DropKeepsAsks(asks: seq<Ask>, log: seq<Event>, lost: set<nat>)
    requires AsksLogged(asks, log)
    requires forall a :: a in lost && a < |asks| ==> !asks[a].sender.Sent? && !asks[a].sender.Absent?
    ensures AsksLogged(DropSenders(asks, lost), log)
  {
    forall a: nat
      ensures AskLogged(DropSenders(asks, lost), log, a)
    {
      assert AskLogged(asks, log, a);
    }
  }

  /** One decision channel changes hands; no decision is sent. */
  lemma MoveKeepsAsks(asks: seq<Ask>, log: seq<Event>, a: nat, to: Sender)
    requires AsksLogged(asks, log)
    requires a < |asks| && !asks[a].sender.Sent? && !asks[a].sender.Absent? && !to.Sent?
    ensures AsksLogged(asks[a := asks[a].(sender := to)], log)
  {
    var after := asks[a := asks[a].(sender := to)];
    forall b: nat
      ensures AskLogged(after, log, b)
    {
      assert AskLogged(asks, log, b);
    }
  }

  /** An event that is no decision. */
  lemma EventKeepsAsks(asks: seq<Ask>, log: seq<Event>, e: Event)
    requires AsksLogged(asks, log) && !e.Decided? && (e.Granted? ==> e.ask < |asks|)
    requires e.Accepted? ==> e.ask < |asks| && Acceptable(asks[e.ask].sender)
    ensures AsksLogged(asks, log + [e])
  {
    LastsAppend(log, e);
    var longer := log + [e];
    forall b: nat
      ensures AskLogged(asks, longer, b)
    {
      assert AskLogged(asks, log, b);
    }
  }

  /** An event about an Ask of connection `c`, or about none, and what that connection does next. */
  lemma EventKeepsConns(w: World, c: nat, to: Connection, e: Event)
    requires ConnsLogged(w.conns, w.log) && Placed(w.conns, w.windows, w.asks)
    requires c < |w.conns| && ConnLogged(to, w.log + [e])
    requires e.Accepted? || e.Granted? ==> e.ask < |w.asks| && w.asks[e.ask].conn == c
    ensures ConnsLogged(w.conns[c := to], w.log + [e])
  {
    LastsAppend(w.log, e);
    var after, log := w.conns[c := to], w.log + [e];
    forall d | 0 <= d < |after|
      ensures ConnLogged(after[d], log)
    {
      assert ConnLogged(w.conns[d], w.log) && ConnPlaced(w.conns, d, w.windows, w.asks);
    }
  }

  /** An event that is about no grant. */
  lemma EventKeepsGrants(windows: seq<Window>, log: seq<Event>, now: nat, e: Event)
    requires GrantsLogged(windows, log, now) && GatesLogged(windows, log) && !e.Granted? && !e.LetThrough?
    requires e.Accepted? ==> e.site.window < |windows| && e.gated == windows[e.site.window].gated
    ensures GrantsLogged(windows, log + [e], now) && GatesLogged(windows, log + [e])
  {
    LastsAppend(log, e);
    var longer := log + [e];
    forall k: nat, ip: Address | k < |windows|
      ensures GrantLogged(windows[k].grants, k, ip, longer, now)
    {
      assert GrantLogged(windows[k].grants, k, ip, log, now);
    }
  }

  /** The event is the grant now in the table, or the use of one no longer there. */
  lemma EventSetsGrant(windows: seq<Window>, log: seq<Event>, now: nat, e: Event, g: Grants)
    requires GrantsLogged(windows, log, now) && GatesLogged(windows, log)
    requires (e.Granted? || e.LetThrough?) && e.site.window < |windows|
    requires if e.Granted? then e.site.ip in g && g[e.site.ip] == e.time <= now else e.site.ip !in g
    requires forall ip :: ip in g && ip != e.site.ip ==>
               ip in windows[e.site.window].grants && g[ip] == windows[e.site.window].grants[ip]
    ensures GrantsLogged(windows[e.site.window := windows[e.site.window].(grants := g)], log + [e], now)
    ensures GatesLogged(windows[e.site.window := windows[e.site.window].(grants := g)], log + [e])
  {
    LastsAppend(log, e);
    var after, longer := windows[e.site.window := windows[e.site.window].(grants := g)], log + [e];
    forall k: nat, ip: Address | k < |after|
      ensures GrantLogged(after[k].grants, k, ip, longer, now)
    {
      assert GrantLogged(windows[k].grants, k, ip, log, now);
    }
  }

  lemma ConnKeepsPlaces(conns: seq<Connection>, windows: seq<Window>, asks: seq<Ask>, c: nat, to: Connection)
    requires Placed(conns, windows, asks) && c < |conns| && ConnPlaced(conns[c := to], c, windows, asks)
    ensures Placed(conns[c := to], windows, asks)
  {
    var after := conns[c := to];
    forall d | 0 <= d < |after|
      ensures ConnPlaced(after, d, windows, asks)
    {
      assert ConnPlaced(conns, d, windows, asks);
    }
  }

  /** Another table in one window. */
  lemma TableKeepsWindows(windows: seq<Window>, pending: Option<nat>, asks: seq<Ask>, k: nat, g: Grants)
    requires Sized(windows) && Owned(windows, pending, asks) && k < |windows| && |g| <= MAX_GRANTS
    ensures Sized(windows[k := windows[k].(grants := g)])
            && Owned(windows[k := windows[k].(grants := g)], pending, asks)
  {
    var after := windows[k := windows[k].(grants := g)];
    forall i | 0 <= i < |after|
      ensures OwnedBy(after[i], i, asks) && Small(after[i])
    {
      assert OwnedBy(windows[i], i, asks) && Small(windows[i]);
    }
  }

  /** A window closes; the senders of its channel and of its job's hand go, and the pending one may go with them. */
  lemma CloseKeepsWindows(windows: seq<Window>, asks: seq<Ask>, k: nat, pending: Option<nat>, lost: set<nat>)
    requires Sized(windows) && Owned(windows, pending, asks)
    requires forall a :: a in lost && a < |asks| ==>
               asks[a].sender == Shown || asks[a].sender == Queued(k) || asks[a].sender == InHand(k)
    requires pending.Some? ==> pending.value !in lost
    ensures Sized(CloseWindow(windows, k)) && Owned(CloseWindow(windows, k), pending, DropSenders(asks, lost))
  {
    var after, left := CloseWindow(windows, k), DropSenders(asks, lost);
    forall i | 0 <= i < |after|
      ensures OwnedBy(after[i], i, left) && Small(after[i])
    {
      assert OwnedBy(windows[i], i, asks) && Small(windows[i]);
    }
  }

  lemma GrantsSame(windows: seq<Window>, after: seq<Window>, log: seq<Event>, now: nat)
    requires GrantsLogged(windows, log, now) && GatesLogged(windows, log) && |after| >= |windows|
    requires forall k :: 0 <= k < |windows| ==>
               after[k].grants == windows[k].grants && after[k].gated == windows[k].gated
    requires forall k :: |windows| <= k < |after| ==> after[k].grants == map[]
    ensures GrantsLogged(after, log, now) && GatesLogged(after, log)
  {
    forall k: nat, ip: Address | k < |after|
      ensures GrantLogged(after[k].grants, k, ip, log, now)
    {
      assert k < |windows| ==> GrantLogged(windows[k].grants, k, ip, log, now);
    }
  }

  // ----- the daemon's handlers and jobs -----

  lemma TickKeeps(w: World, d: nat)
    requires Inv(w)
    ensures Inv(w.(now := w.now + d))
  {
    var now := w.now + d;
    forall k: nat, ip: Address | k < |w.windows|
      ensures GrantLogged(w.windows[k].grants, k, ip, w.log, now)
    {
      assert GrantLogged(w.windows[k].grants, k, ip, w.log, w.now);
    }
  }

  lemma SpawnKeeps(w: World, seconds: int, host: bool)
    requires Inv(w)
    ensures Inv(w.(control := AfterReceive(w.control, seconds))) && Inv(w.(control := AfterSend(w.control, host)))
  {
  }

  lemma DropPendingKeeps(w: World)
    requires Inv(w)
    ensures Inv(WithoutPending(w))
  {
    LostAreUnsent(w);
    DropKeepsAsks(w.asks, w.log, Held(w.control.pending));
    PlacesKeep(w, WithoutPending(w));
    CloseKeepsWindows(w.windows, w.asks, |w.windows|, None, Held(w.control.pending));
    hide Sound, AsksLogged, ConnsLogged, Placed, GrantsLogged, GatesLogged, Owned, Sized, DropSenders;
  }

  lemma StopKeeps(w: World)
    requires Inv(w)
    ensures Inv(DoStop(w))
  {
    DropPendingKeeps(w);
    var k := CurrentWindow(w.control);
    if k.Some? {
      CloseKeeps(WithoutPending(w), k.value);
    }
    StopKeepsJob(w.control);
    hide Sound, AsksLogged, ConnsLogged, Placed, GrantsLogged, GatesLogged, Owned, Sized, OneJob, AfterStop, Close,
      CurrentWindow;
  }

  lemma StopKeepsJob(c: Control)
    requires OneJob(c)
    ensures OneJob(AfterStop(c)) && AfterStop(c).pending.None?
  {
  }

  lemma LostAreUnsent(w: World)
    requires Owned(w.windows, w.control.pending, w.asks)
    ensures forall a :: a in Held(w.control.pending) ==> a < |w.asks| && w.asks[a].sender.Shown?
    ensures forall k :: 0 <= k < |w.windows| ==> forall a :: a in HeldByWindow(w, k) ==>
              a < |w.asks| && (w.asks[a].sender == Queued(k) || w.asks[a].sender == InHand(k))
  {
    forall k, a | 0 <= k < |w.windows| && a in HeldByWindow(w, k)
      ensures a < |w.asks| && (w.asks[a].sender == Queued(k) || w.asks[a].sender == InHand(k))
    {
      assert OwnedBy(w.windows[k], k, w.asks);
    }
  }

  lemma DecideKeeps(w: World, accepted: bool)
    requires Inv(w)
    ensures Inv(DoDecide(w, accepted))
  {
    if w.control.pending.Some? {
      var a := w.control.pending.value;
      var e := Decided(a, accepted);
      assert AskLogged(w.asks, w.log, a);
      SoundAppend(w.log, e);
      SentKeepsAsks(w.asks, w.log, a, accepted);
      SentKeepsConns(w.conns, w.log, e);
      PlacesKeep(w, DoDecide(w, accepted));
      EventKeepsGrants(w.windows, w.log, w.now, e);
      SentKeepsWindows(w.windows, w.control.pending, w.asks, accepted);
      hide Sound, AsksLogged, ConnsLogged, Placed, GrantsLogged, GatesLogged, Owned, Sized, Last, About;
    }
  }

  lemma SentKeepsAsks(asks: seq<Ask>, log: seq<Event>, a: nat, accepted: bool)
    requires AsksLogged(asks, log) && a < |asks| && asks[a].sender.Shown?
    ensures AsksLogged(asks[a := asks[a].(sender := Sent(accepted))], log + [Decided(a, accepted)])
  {
    LastsAppend(log, Decided(a, accepted));
    var after, longer := asks[a := asks[a].(sender := Sent(accepted))], log + [Decided(a, accepted)];
    forall b: nat
      ensures AskLogged(after, longer, b)
    {
      assert AskLogged(asks, log, b);
    }
  }

  lemma SentKeepsConns(conns: seq<Connection>, log: seq<Event>, e: Event)
    requires ConnsLogged(conns, log) && e.Decided?
    ensures ConnsLogged(conns, log + [e])
  {
    LastsAppend(log, e);
    forall c | 0 <= c < |conns|
      ensures ConnLogged(conns[c], log + [e])
    {
      assert ConnLogged(conns[c], log);
    }
  }

  lemma SentKeepsWindows(windows: seq<Window>, pending: Option<nat>, asks: seq<Ask>, accepted: bool)
    requires Owned(windows, pending, asks) && pending.Some?
    ensures Owned(windows, None, asks[pending.value := asks[pending.value].(sender := Sent(accepted))])
  {
    var after := asks[pending.value := asks[pending.value].(sender := Sent(accepted))];
    forall i | 0 <= i < |windows|
      ensures OwnedBy(windows[i], i, after)
    {
      assert OwnedBy(windows[i], i, asks);
    }
  }

  lemma NewWindowKeeps(w: World, gated: bool)
    requires Inv(w)
    ensures Inv(w.(windows := w.windows + [NewWindow(gated)]))
  {
    var after := w.windows + [NewWindow(gated)];
    GrantsSame(w.windows, after, w.log, w.now);
    PlacesKeep(w, w.(windows := after));
    forall i | 0 <= i < |after|
      ensures OwnedBy(after[i], i, w.asks) && Small(after[i])
    {
      if i < |w.windows| {
        assert OwnedBy(w.windows[i], i, w.asks) && Small(w.windows[i]);
      }
    }
  }

  lemma ReadyKeeps(w: World, j: nat)
    requires Inv(w)
    ensures Inv(DoReady(w, j))
  {
    if j < |w.control.jobs| && w.control.jobs[j].Starting? {
      assert Live(w.control.jobs[j]);
      NewWindowKeeps(w, true);
    }
  }

  lemma LeaveKeeps(w: World, j: nat, ok: bool)
    requires Inv(w)
    ensures Inv(DoLeave(w, j, ok))
  {
    if j < |w.control.jobs| && Live(w.control.jobs[j]) && !w.control.jobs[j].Ending? {
      if w.control.jobs[j].Open? {
        var k := w.control.jobs[j].window;
        CloseKeeps(w, k);
        EndingKeeps(Close(w, k), j, ok);
      } else {
        EndingKeeps(w, j, ok && !w.control.jobs[j].Starting?);
      }
      hide Inv, Close;
    }
  }

  lemma EndingKeeps(w: World, j: nat, ok: bool)
    requires Inv(w) && j < |w.control.jobs| && Live(w.control.jobs[j]) && !w.control.jobs[j].Ending?
    ensures Inv(w.(control := w.control.(jobs := w.control.jobs[j := Ending(ok)])))
  {
    LeaveKeepsJob(w.control, j, ok);
    hide Sound, AsksLogged, ConnsLogged, Placed, GrantsLogged, GatesLogged, Owned, Sized, OneJob;
  }

  lemma LeaveKeepsJob(c: Control, j: nat, ok: bool)
    requires OneJob(c) && j < |c.jobs| && Live(c.jobs[j]) && !c.jobs[j].Ending?
    ensures OneJob(c.(jobs := c.jobs[j := Ending(ok)]))
  {
  }

  lemma CloseKeeps(w: World, k: nat)
    requires Inv(w)
    ensures Inv(Close(w, k)) && Close(w, k).control == w.control
  {
    LostAreUnsent(w);
    DropKeepsAsks(w.asks, w.log, HeldByWindow(w, k));
    CloseKeepsConns(w, k);
    GrantsSame(w.windows, CloseWindow(w.windows, k), w.log, w.now);
    CloseKeepsWindows(w.windows, w.asks, k, w.control.pending, HeldByWindow(w, k));
    hide Sound, AsksLogged, ConnsLogged, Placed, GrantsLogged, GatesLogged, Owned, Sized, DropSenders, CloseConns;
  }

  lemma CloseKeepsConns(w: World, k: nat)
    requires ConnsLogged(w.conns, w.log) && Placed(w.conns, w.windows, w.asks)
    ensures ConnsLogged(Close(w, k).conns, w.log) && Placed(Close(w, k).conns, Close(w, k).windows, Close(w, k).asks)
  {
    PlacesKeep(w, Close(w, k));
    forall c | 0 <= c < |w.conns|
      ensures ConnLogged(Close(w, k).conns[c], w.log)
    {
      assert ConnLogged(w.conns[c], w.log);
    }
  }

  lemma EndServingKeeps(w: World, k: nat)
    requires Inv(w)
    ensures Inv(DoEndServing(w, k))
  {
    CloseKeeps(w, k);
    hide Inv, Close;
  }

  lemma PickKeeps(w: World, j: nat)
    requires Inv(w)
    ensures Inv(DoPick(w, j))
  {
    if DoPick(w, j) != w {
      TakeUpKeeps(w, WindowOf(w, j).value);
    }
  }

  lemma TakeUpKeeps(w: World, k: nat)
    requires Inv(w) && k < |w.windows| && w.windows[k].hand.None? && w.windows[k].queue != []
             && w.windows[k].queue[0] < |w.asks|
    ensures Inv(TakeUp(w, k))
  {
    var after := TakeUp(w, k);
    assert OwnedBy(w.windows[k], k, w.asks) && Small(w.windows[k]);
    MoveKeepsAsks(w.asks, w.log, w.windows[k].queue[0], InHand(k));
    PlacesKeep(w, after);
    GrantsSame(w.windows, after.windows, w.log, w.now);
    MoveKeepsWindows(w, k, w.windows[k].queue[0], after);
    hide Sound, AsksLogged, ConnsLogged, Placed, GrantsLogged, GatesLogged, Owned, Sized, OneJob, TakeUp;
  }

  /** A window that gives up one of its Asks, or moves it, leaves the others as they are. */
  lemma MoveKeepsWindows(w: World, k: nat, a: nat, after: World)
    requires Sized(w.windows) && Owned(w.windows, w.control.pending, w.asks) && k < |w.windows|
    requires |after.asks| == |w.asks| && a < |w.asks| && after.asks == w.asks[a := after.asks[a]]
    requires w.asks[a].sender == Queued(k) || w.asks[a].sender == InHand(k)
    requires |after.windows| == |w.windows| && after.windows == w.windows[k := after.windows[k]]
    requires OwnedBy(after.windows[k], k, after.asks) && Small(after.windows[k])
    requires after.control.pending == w.control.pending || (w.control.pending.None? && after.control.pending.Some?
               && after.control.pending.value < |after.asks| && after.asks[after.control.pending.value].sender.Shown?)
    ensures Sized(after.windows) && Owned(after.windows, after.control.pending, after.asks)
  {
    forall i | 0 <= i < |after.windows|
      ensures OwnedBy(after.windows[i], i, after.asks) && Small(after.windows[i])
    {
      assert OwnedBy(w.windows[i], i, w.asks) && Small(w.windows[i]);
      assert i != k ==> after.windows[i] == w.windows[i];
    }
  }

  lemma ShowKeeps(w: World, j: nat)
    requires Inv(w)
    ensures Inv(DoShow(w, j))
  {
    if DoShow(w, j) != w {
      DropPendingKeeps(w);
      PutUpKeeps(WithoutPending(w), WindowOf(w, j).value);
    }
  }

  lemma PutUpKeeps(w: World, k: nat)
    requires Inv(w) && w.control.pending.None? && k < |w.windows| && w.windows[k].hand.Some?
             && w.windows[k].hand.value < |w.asks|
    ensures Inv(PutUp(w, k))
  {
    var after := PutUp(w, k);
    assert OwnedBy(w.windows[k], k, w.asks) && Small(w.windows[k]);
    MoveKeepsAsks(w.asks, w.log, w.windows[k].hand.value, Shown);
    PlacesKeep(w, after);
    GrantsSame(w.windows, after.windows, w.log, w.now);
    MoveKeepsWindows(w, k, w.windows[k].hand.value, after);
    hide Sound, AsksLogged, ConnsLogged, Placed, GrantsLogged, GatesLogged, Owned, Sized;
  }

  lemma FinishKeeps(w: World, j: nat)
    requires Inv(w)
    ensures Inv(DoFinish(w, j))
  {
    if j < |w.control.jobs| && w.control.jobs[j].Ending? {
      assert Live(w.control.jobs[j]);
    }
  }

  // ----- the connections -----

  /** A connection that stops waiting for its Ask, or that was not waiting. */
  lemma IdleConnKeeps(w: World, c: nat, to: Connection)
    requires Inv(w) && c < |w.conns| && to.site == w.conns[c].site
    requires to.at.Closed? || (to.at.Reading? && !w.conns[c].at.Closed?)
    ensures Inv(SetConn(w, c, to))
  {
    var after := SetConn(w, c, to);
    forall d | 0 <= d < |w.conns|
      ensures ConnLogged(after.conns[d], w.log) && ConnPlaced(after.conns, d, w.windows, w.asks)
    {
      assert ConnLogged(w.conns[d], w.log) && ConnPlaced(w.conns, d, w.windows, w.asks);
    }
  }

  lemma ArriveKeeps(w: World, k: nat, ip: Address)
    requires Inv(w)
    ensures Inv(DoArrive(w, k, ip))
  {
    var after := DoArrive(w, k, ip);
    if after != w {
      GrantsSame(w.windows, after.windows, w.log, w.now);
      forall i | 0 <= i < |after.windows|
        ensures OwnedBy(after.windows[i], i, w.asks) && Small(after.windows[i])
      {
        assert OwnedBy(w.windows[i], i, w.asks) && Small(w.windows[i]);
      }
      forall c | 0 <= c < |after.conns|
        ensures ConnLogged(after.conns[c], w.log) && ConnPlaced(after.conns, c, after.windows, w.asks)
      {
        if c < |w.conns| {
          assert ConnLogged(w.conns[c], w.log) && ConnPlaced(w.conns, c, w.windows, w.asks);
        }
      }
    }
  }

  lemma ReapKeeps(w: World, k: nat, c: nat)
    requires Inv(w)
    ensures Inv(DoReap(w, k, c))
  {
    var after := DoReap(w, k, c);
    if after != w {
      GrantsSame(w.windows, after.windows, w.log, w.now);
      SubsetSize(w.windows[k].tasks - {c}, w.windows[k].tasks);
      forall i | 0 <= i < |after.windows|
        ensures OwnedBy(after.windows[i], i, w.asks) && Small(after.windows[i])
      {
        assert OwnedBy(w.windows[i], i, w.asks) && Small(w.windows[i]);
      }
      PlacesKeep(w, after);
    }
  }

  /** A new Ask, not yet decided. */
  lemma NewAskKeeps(w: World, ask: Ask)
    requires Inv(w) && !ask.sender.Sent?
    ensures Inv(w.(asks := w.asks + [ask]))
  {
    var asks := w.asks + [ask];
    forall a: nat
      ensures AskLogged(asks, w.log, a)
    {
      assert AskLogged(w.asks, w.log, a);
    }
    PlacesKeep(w, w.(asks := asks));
    forall i | 0 <= i < |w.windows|
      ensures OwnedBy(w.windows[i], i, asks)
    {
      assert OwnedBy(w.windows[i], i, w.asks);
    }
  }

  /** The newest Ask enters its window's channel, and its connection waits for the decision. */
  lemma EnqueueKeeps(w: World, c: nat, a: nat)
    requires Inv(w) && c < |w.conns| && w.conns[c].at.Reading? && a + 1 == |w.asks| && w.asks[a].conn == c
    requires var k := w.conns[c].site.window;
             k < |w.windows| && w.windows[k].gated && w.windows[k].open && |w.windows[k].queue| < CHANNEL
    requires w.asks[a].sender == Queued(w.conns[c].site.window)
    requires forall k :: 0 <= k < |w.windows| ==> a !in w.windows[k].queue
    requires Last(w.log, Acceptance(a)).None? && Last(w.log, Grant(a)).None?
    ensures var k := w.conns[c].site.window;
            Inv(SetConn(w, c, w.conns[c].(at := Deciding(a, w.now)))
                  .(windows := w.windows[k := w.windows[k].(queue := w.windows[k].queue + [a])]))
  {
    var k := w.conns[c].site.window;
    var to := w.conns[c].(at := Deciding(a, w.now));
    var after := w.windows[k := w.windows[k].(queue := w.windows[k].queue + [a])];
    GrantsSame(w.windows, after, w.log, w.now);
    QueueKeepsWindows(w.windows, w.control.pending, w.asks, k);
    PlacesKeep(w, w.(windows := after));
    ConnKeepsPlaces(w.conns, after, w.asks, c, to);
    var conns := w.conns[c := to];
    forall d | 0 <= d < |conns|
      ensures ConnLogged(conns[d], w.log)
    {
      assert ConnLogged(w.conns[d], w.log);
    }
    hide Sound, AsksLogged, Placed, GrantsLogged, GatesLogged, Owned, Sized, OneJob;
  }

  lemma QueueKeepsWindows(windows: seq<Window>, pending: Option<nat>, asks: seq<Ask>, k: nat)
    requires Sized(windows) && Owned(windows, pending, asks) && |asks| > 0 && asks[|asks| - 1].sender == Queued(k)
    requires k < |windows| && windows[k].gated && windows[k].open && |windows[k].queue| < CHANNEL
    requires |asks| - 1 !in windows[k].queue
    ensures var after := windows[k := windows[k].(queue := windows[k].queue + [|asks| - 1])];
            Sized(after) && Owned(after, pending, asks)
  {
    var after := windows[k := windows[k].(queue := windows[k].queue + [|asks| - 1])];
    forall i | 0 <= i < |after|
      ensures OwnedBy(after[i], i, asks) && Small(after[i])
    {
      assert OwnedBy(windows[i], i, asks) && Small(windows[i]);
      forall j | 0 <= j < |windows[k].queue|
        ensures windows[k].queue[j] < |asks| - 1
      {
        assert windows[k].queue[j] in windows[k].queue && OwnedBy(windows[k], k, asks);
      }
    }
  }

  /** A connection sees that its Ask is accepted, and goes on or ends. */
  lemma SeenKeeps(w: World, c: nat, a: nat, gated: bool, to: Connection)
    requires Inv(w) && c < |w.conns| && a < |w.asks| && w.asks[a].conn == c
    requires Last(w.log, Acceptance(a)).None?
    requires w.conns[c].site.window < |w.windows| && gated == w.windows[w.conns[c].site.window].gated
    requires w.asks[a].sender == if gated then Sent(true) else Absent
    requires to.site == w.conns[c].site && (to.at.Closed? || (to.at.Reading? && !w.conns[c].at.Closed?))
    ensures Inv(SetConn(w, c, to).(log := w.log + [Accepted(a, w.conns[c].site, w.asks[a].links, gated, w.now)]))
  {
    var e := Accepted(a, w.conns[c].site, w.asks[a].links, gated, w.now);
    assert AskLogged(w.asks, w.log, a) && ConnPlaced(w.conns, c, w.windows, w.asks);
    SoundAppend(w.log, e);
    EventKeepsAsks(w.asks, w.log, e);
    EventKeepsConns(w, c, to, e);
    EventKeepsGrants(w.windows, w.log, w.now, e);
    ConnKeepsPlaces(w.conns, w.windows, w.asks, c, to);
    hide Sound, AsksLogged, ConnsLogged, Placed, GrantsLogged, GatesLogged, Owned, Sized, OneJob, Last;
  }

  /** A file Ask just accepted becomes the grant of its address. */
  lemma GrantKeeps(w: World, c: nat, a: nat, g: Grants)
    requires Inv(w) && c < |w.conns| && a < |w.asks| && w.asks[a].conn == c
    requires Last(w.log, Grant(a)).None? && Last(w.log, Acceptance(a)).Some?
    requires var e := w.log[Last(w.log, Acceptance(a)).value]; e.site == w.conns[c].site && e.time == w.now && !e.links
    requires w.conns[c].at.Reading? || w.conns[c].at.Closed?
    requires var site := w.conns[c].site;
             site.window < |w.windows| && site.ip in g && g[site.ip] == w.now && |g| <= MAX_GRANTS
    requires var site := w.conns[c].site;
             forall ip :: ip in g && ip != site.ip ==>
               ip in w.windows[site.window].grants && g[ip] == w.windows[site.window].grants[ip]
    ensures var site := w.conns[c].site;
            Inv(w.(windows := w.windows[site.window := w.windows[site.window].(grants := g)],
                   log := w.log + [Granted(a, site, w.now)]))
  {
    var site := w.conns[c].site;
    var e := Granted(a, site, w.now);
    var after := w.windows[site.window := w.windows[site.window].(grants := g)];
    SoundAppend(w.log, e);
    EventKeepsAsks(w.asks, w.log, e);
    EventKeepsConns(w, c, w.conns[c], e);
    EventSetsGrant(w.windows, w.log, w.now, e, g);
    PlacesKeep(w, w.(windows := after));
    TableKeepsWindows(w.windows, w.control.pending, w.asks, site.window, g);
    assert w.conns[c := w.conns[c]] == w.conns;
    hide Sound, AsksLogged, ConnsLogged, Placed, GrantsLogged, GatesLogged, Owned, Sized, OneJob, Last;
  }

  lemma AcceptKeeps(w: World, c: nat, a: nat, gated: bool)
    requires Inv(w) && c < |w.conns| && !w.conns[c].at.Closed? && a < |w.asks| && w.asks[a].conn == c
    requires Last(w.log, Acceptance(a)).None? && Last(w.log, Grant(a)).None?
    requires w.conns[c].site.window < |w.windows| && gated == w.windows[w.conns[c].site.window].gated
    requires w.asks[a].sender == if gated then Sent(true) else Absent
    ensures Inv(Accept(w, c, a, gated))
  {
    hide Inv, Accept;
    if w.asks[a].links {
      SeenKeeps(w, c, a, gated, AfterRequest(w.conns[c]));
      AcceptedLinks(w, c, a, gated);
    } else if Enter(w.windows[w.conns[c].site.window].grants, w.conns[c].site.ip, w.now).Ok? {
      SeenKeeps(w, c, a, gated, AfterRequest(w.conns[c]));
      AcceptWithRoomKeeps(w, c, a, gated);
    } else {
      SeenKeeps(w, c, a, gated, w.conns[c].(at := Closed));
      AcceptWithoutRoomKeeps(w, c, a, gated);
    }
  }

  lemma AcceptedLinks(w: World, c: nat, a: nat, gated: bool)
    requires c < |w.conns| && a < |w.asks| && w.asks[a].links && w.conns[c].site.window < |w.windows|
    ensures var e := Accepted(a, w.conns[c].site, true, gated, w.now);
            Accept(w, c, a, gated) == SetConn(w, c, AfterRequest(w.conns[c])).(log := w.log + [e])
  {
  }

  lemma AcceptWithRoomKeeps(w: World, c: nat, a: nat, gated: bool)
    requires c < |w.conns| && a < |w.asks| && w.asks[a].conn == c && !w.asks[a].links
    requires var site := w.conns[c].site;
             site.window < |w.windows| && Enter(w.windows[site.window].grants, site.ip, w.now).Ok?
    requires Last(w.log, Grant(a)).None?
    requires Inv(SetConn(w, c, AfterRequest(w.conns[c]))
                   .(log := w.log + [Accepted(a, w.conns[c].site, false, gated, w.now)]))
    ensures Inv(Accept(w, c, a, gated))
  {
    hide Inv;
    var site := w.conns[c].site;
    var e := Accepted(a, site, false, gated, w.now);
    var grants := w.windows[site.window].grants;
    LastAppend(w.log, e, Acceptance(a));
    LastAppend(w.log, e, Grant(a));
    EnteredIsKept(grants, site.ip, w.now);
    GrantKeeps(SetConn(w, c, AfterRequest(w.conns[c])).(log := w.log + [e]), c, a, Enter(grants, site.ip, w.now).value);
    assert w.log + [e] + [Granted(a, site, w.now)] == w.log + [e, Granted(a, site, w.now)];
  }

  lemma AcceptWithoutRoomKeeps(w: World, c: nat, a: nat, gated: bool)
    requires c < |w.conns| && a < |w.asks| && !w.asks[a].links
    requires var site := w.conns[c].site;
             site.window < |w.windows| && Enter(w.windows[site.window].grants, site.ip, w.now).Err?
    requires Inv(SetConn(w, c, w.conns[c].(at := Closed))
                   .(log := w.log + [Accepted(a, w.conns[c].site, false, gated, w.now)]))
    ensures Inv(Accept(w, c, a, gated))
  {
    hide Inv;
    var site := w.conns[c].site;
    var seen := w.log + [Accepted(a, site, false, gated, w.now)];
    var grants := w.windows[site.window].grants;
    RetainedIsSmaller(grants, w.now);
    FewerGrantsKeep(SetConn(w, c, w.conns[c].(at := Closed)).(log := seen), site.window,
                    Enter(grants, site.ip, w.now).error);
  }

  lemma EnteredIsKept(grants: Grants, peer: Address, now: nat)
    requires Enter(grants, peer, now).Ok?
    ensures var g := Enter(grants, peer, now).value;
            && peer in g && g[peer] == now && |g| <= MAX_GRANTS
            && forall ip :: ip in g && ip != peer ==> ip in grants && g[ip] == grants[ip]
  {
  }

  lemma AskKeeps(w: World, c: nat, links: bool)
    requires Inv(w)
    ensures Inv(DoAsk(w, c, links))
  {
    if c < |w.conns| && w.conns[c].at.Reading? && w.conns[c].site.window < |w.windows| {
      var k := w.conns[c].site.window;
      var win := w.windows[k];
      var a := |w.asks|;
      assert AskLogged(w.asks, w.log, a);
      if !win.gated {
        NewAskKeeps(w, Ask(c, links, Absent));
        AcceptKeeps(w.(asks := w.asks + [Ask(c, links, Absent)]), c, a, false);
      } else if win.open && |win.queue| < CHANNEL {
        NewAskKeeps(w, Ask(c, links, Queued(k)));
        forall i | 0 <= i < |w.windows|
          ensures a !in w.windows[i].queue
        {
          assert OwnedBy(w.windows[i], i, w.asks);
        }
        EnqueueKeeps(w.(asks := w.asks + [Ask(c, links, Queued(k))]), c, a);
      } else {
        NewAskKeeps(w, Ask(c, links, Sender.Dropped));
        IdleConnKeeps(w.(asks := w.asks + [Ask(c, links, Sender.Dropped)]), c, AfterRequest(w.conns[c]));
      }
    }
  }

  lemma ResolveKeeps(w: World, c: nat)
    requires Inv(w)
    ensures Inv(DoResolve(w, c))
  {
    if c < |w.conns| && w.conns[c].at.Deciding? {
      var a := w.conns[c].at.ask;
      assert ConnPlaced(w.conns, c, w.windows, w.asks) && ConnLogged(w.conns[c], w.log);
      hide Inv, Accept;
      if w.asks[a].sender == Sent(true) {
        AcceptKeeps(w, c, a, true);
      } else {
        IdleConnKeeps(w, c, AfterRequest(w.conns[c]));
      }
    }
  }

  /** A table that lost grants. */
  lemma FewerGrantsKeep(w: World, k: nat, g: Grants)
    requires Inv(w) && k < |w.windows| && |g| <= |w.windows[k].grants|
    requires forall ip :: ip in g ==> ip in w.windows[k].grants && g[ip] == w.windows[k].grants[ip]
    ensures Inv(w.(windows := w.windows[k := w.windows[k].(grants := g)]))
  {
    var after := w.windows[k := w.windows[k].(grants := g)];
    forall i: nat, ip: Address | i < |after|
      ensures GrantLogged(after[i].grants, i, ip, w.log, w.now)
    {
      assert GrantLogged(w.windows[i].grants, i, ip, w.log, w.now);
    }
    forall i | 0 <= i < |after|
      ensures OwnedBy(after[i], i, w.asks) && Small(after[i])
    {
      assert OwnedBy(w.windows[i], i, w.asks) && Small(w.windows[i]);
    }
    PlacesKeep(w, w.(windows := after));
  }

  /** An Upload spends the grant of its address. */
  lemma LetThroughKeeps(w: World, c: nat)
    requires Inv(w) && c < |w.conns| && w.conns[c].at.Reading? && w.conns[c].site.window < |w.windows|
    requires Authorized(w.windows[w.conns[c].site.window].grants, w.conns[c].site.ip, w.now)
    ensures Inv(DoUpload(w, c))
  {
    var site := w.conns[c].site;
    var e := LetThrough(site, w.now);
    var grants := w.windows[site.window].grants;
    var after := w.windows[site.window := w.windows[site.window].(grants := grants - {site.ip})];
    SubsetSize((grants - {site.ip}).Keys, grants.Keys);
    assert GrantLogged(grants, site.window, site.ip, w.log, w.now) && Small(w.windows[site.window]);
    assert ConnPlaced(w.conns, c, w.windows, w.asks);
    SoundAppend(w.log, e);
    EventKeepsAsks(w.asks, w.log, e);
    EventKeepsConns(w, c, AfterRequest(w.conns[c]), e);
    EventSetsGrant(w.windows, w.log, w.now, e, grants - {site.ip});
    PlacesKeep(w, w.(windows := after));
    ConnKeepsPlaces(w.conns, after, w.asks, c, AfterRequest(w.conns[c]));
    TableKeepsWindows(w.windows, w.control.pending, w.asks, site.window, grants - {site.ip});
    hide Sound, AsksLogged, ConnsLogged, Placed, GrantsLogged, GatesLogged, Owned, Sized, OneJob, Last;
  }

  lemma UploadKeeps(w: World, c: nat)
    requires Inv(w)
    ensures Inv(DoUpload(w, c))
  {
    if c < |w.conns| && w.conns[c].at.Reading? && w.conns[c].site.window < |w.windows| {
      var site := w.conns[c].site;
      var grants := w.windows[site.window].grants;
      if Authorized(grants, site.ip, w.now) {
        LetThroughKeeps(w, c);
      } else {
        SubsetSize((grants - {site.ip}).Keys, grants.Keys);
        IdleConnKeeps(w, c, w.conns[c].(at := Closed));
        FewerGrantsKeep(SetConn(w, c, w.conns[c].(at := Closed)), site.window, grants - {site.ip});
      }
    }
  }

  // ----- every run -----

  lemma NextKeeps(w: World, a: Action)
    requires Inv(w)
    ensures Inv(Next(w, a))
  {
    hide Inv, AfterReceive, AfterSend, DoStop, DoDecide, DoReady, DoLeave, DoPick, DoShow, DoFinish, DoArrive, DoReap,
      DoAsk,
      DoResolve, DoUpload, DoEndServing;
    match a
    case Tick(d) => TickKeeps(w, d);
    case Receive(seconds) => SpawnKeeps(w, seconds, true);
    case Send(host) => SpawnKeeps(w, 1, host);
    case Stop => StopKeeps(w);
    case Decide(accepted) => DecideKeeps(w, accepted);
    case RadioReady(j) => ReadyKeeps(w, j);
    case Leave(j, ok) => LeaveKeeps(w, j, ok);
    case Pick(j) => PickKeeps(w, j);
    case Show(j) => ShowKeeps(w, j);
    case Finish(j) => FinishKeeps(w, j);
    case Serve => NewWindowKeeps(w, false);
    case EndServing(k) => EndServingKeeps(w, k);
    case Arrive(k, ip) => ArriveKeeps(w, k, ip);
    case Reap(k, c) => ReapKeeps(w, k, c);
    case Hangup(c) => if c < |w.conns| { IdleConnKeeps(w, c, w.conns[c].(at := Closed)); }
    case AskArrives(c, links) => AskKeeps(w, c, links);
    case Resolve(c) => ResolveKeeps(w, c);
    case UploadArrives(c) => UploadKeeps(w, c);
  }

  lemma {:induction false} RunKeeps(w: World, actions: seq<Action>)
    requires Inv(w)
    ensures Inv(Run(w, actions))
    decreases |actions|
  {
    if actions != [] {
      NextKeeps(w, actions[0]);
      RunKeeps(Next(w, actions[0]), actions[1..]);
    }
  }

  // ----- what that means -----

  ghost predicate Reachable(w: World) {
    exists actions :: w == Run(START, actions)
  }

  lemma ReachableInv(w: World)
    requires Reachable(w)
    ensures Inv(w)
  {
    var actions :| w == Run(START, actions);
    assert Inv(START);
    RunKeeps(START, actions);
  }

  /** Whatever the interleaving: an Upload is let through only on an Ask for files that was accepted before, less
      than 120 seconds ago, from the same address in the same window; where the window asks the user, the user
      approved that very Ask before; and no two Uploads share an Ask. */
  lemma UploadsAreAuthorized(w: World, i: nat)
    requires Reachable(w) && i < |w.log| && w.log[i].LetThrough?
    ensures Sound(w.log)
    ensures exists c :: 0 <= c < i
              && w.log[c].Accepted? && w.log[c].ask == AskOf(w.log, i) && w.log[c].site == w.log[i].site
                && !w.log[c].links
              && w.log[c].time <= w.log[i].time < w.log[c].time + GRANT_LIFE
    ensures w.log[i].site.window < |w.windows|
    ensures w.windows[w.log[i].site.window].gated ==>
              exists d :: 0 <= d < i && w.log[d] == Decided(AskOf(w.log, i), true)
    ensures forall j :: 0 <= j < |w.log| && j != i && w.log[j].LetThrough? ==> AskOf(w.log, j) != AskOf(w.log, i)
  {
    ReachableInv(w);
    UploadRestsOnAsk(w.log, i);
    forall j | 0 <= j < |w.log| && j != i && w.log[j].LetThrough?
      ensures AskOf(w.log, j) != AskOf(w.log, i)
    {
      if j < i {
        UploadsUseDifferentAsks(w.log, j, i);
      } else {
        UploadsUseDifferentAsks(w.log, i, j);
      }
    }
  }

  /** Where the user is asked, an acceptance rests on one approval, sent on the decision channel of that Ask, and no
      approval serves two acceptances. */
  lemma AcceptancesAreApproved(w: World, c: nat)
    requires Reachable(w) && c < |w.log| && w.log[c].Accepted?
    ensures w.log[c].site.window < |w.windows|
    ensures w.windows[w.log[c].site.window].gated ==>
              exists d :: 0 <= d < c && w.log[d] == Decided(w.log[c].ask, true)
    ensures forall e :: 0 <= e < |w.log| && e != c && w.log[e].Accepted? ==> w.log[e].ask != w.log[c].ask
  {
    ReachableInv(w);
    if w.log[c].gated {
      var d := DecisionOf(w.log, c);
      assert w.log[d] == Decided(w.log[c].ask, true);
    }
    OncePerAsk(w.log, c, Acceptance(w.log[c].ask));
    forall e | c < e < |w.log| && w.log[e].Accepted?
      ensures w.log[e].ask != w.log[c].ask
    {
      OncePerAsk(w.log, e, Acceptance(w.log[e].ask));
    }
  }

  /** At most one job is live, it is the stored one, and the phase shows it; and every window keeps its bounds. */
  lemma OneJobAndBounds(w: World)
    requires Reachable(w)
    ensures var c := w.control;
            && (forall i, j :: 0 <= i < |c.jobs| && 0 <= j < |c.jobs| && Live(c.jobs[i]) && Live(c.jobs[j]) ==>
                  i == j && c.task == Some(i))
            && (c.task.Some? ==> c.task.value < |c.jobs| && Live(c.jobs[c.task.value]))
            && (c.task.Some? <==> c.phase == StartingUp || c.phase == Receiving || c.phase == Sending)
    ensures forall k :: 0 <= k < |w.windows| ==>
              |w.windows[k].grants| <= MAX_GRANTS && |w.windows[k].tasks| <= MAX_TASKS
                && |w.windows[k].queue| <= CHANNEL
  {
    ReachableInv(w);
    var phase := w.control.phase;
    assert phase.Idle? || phase.Failed? || phase.StartingUp? || phase.Receiving? || phase.Sending?;
    forall k | 0 <= k < |w.windows|
      ensures |w.windows[k].grants| <= MAX_GRANTS && |w.windows[k].tasks| <= MAX_TASKS
              && |w.windows[k].queue| <= CHANNEL
    {
      assert Small(w.windows[k]);
    }
  }

  /** No connection serves more than 32 requests: behind the last it is closed. */
  ghost predicate FewRequests(w: World) {
    forall c :: 0 <= c < |w.conns| ==> w.conns[c].requests < 32
  }

  lemma NextKeepsFew(w: World, a: Action)
    requires FewRequests(w)
    ensures FewRequests(Next(w, a))
  {
    hide DoAsk, DoResolve, DoUpload;
    match a
    case AskArrives(c, links) => AskKeepsFew(w, c, links);
    case Resolve(c) => ResolveKeepsFew(w, c);
    case UploadArrives(c) => UploadKeepsFew(w, c);
    case _ =>
  }

  lemma AskKeepsFew(w: World, c: nat, links: bool)
    requires FewRequests(w)
    ensures FewRequests(DoAsk(w, c, links))
  {
    ConnsAfter(w, c, DoAsk(w, c, links));
    hide FewRequests;
  }

  lemma ResolveKeepsFew(w: World, c: nat)
    requires FewRequests(w)
    ensures FewRequests(DoResolve(w, c))
  {
    ConnsAfter(w, c, DoResolve(w, c));
    hide FewRequests;
  }

  lemma UploadKeepsFew(w: World, c: nat)
    requires FewRequests(w)
    ensures FewRequests(DoUpload(w, c))
  {
    ConnsAfter(w, c, DoUpload(w, c));
    hide FewRequests;
  }

  lemma ConnsAfter(w: World, c: nat, after: World)
    requires FewRequests(w)
    requires after.conns == w.conns
             || (c < |w.conns| && exists to ::
                   after.conns == w.conns[c := to]
                   && (to.requests == w.conns[c].requests || to == AfterRequest(w.conns[c])))
    ensures FewRequests(after)
  {
  }

  lemma {:induction false} RunKeepsFew(w: World, actions: seq<Action>)
    requires FewRequests(w)
    ensures FewRequests(Run(w, actions))
    decreases |actions|
  {
    hide FewRequests, Next;
    if actions != [] {
      NextKeepsFew(w, actions[0]);
      RunKeepsFew(Next(w, actions[0]), actions[1..]);
    }
  }

  lemma RequestsAreFew(w: World)
    requires Reachable(w)
    ensures FewRequests(w)
  {
    var actions :| w == Run(START, actions);
    hide Run;
    RunKeepsFew(START, actions);
  }

  /** What a waiting connection does: it goes on when its Ask is decided or dropped, or 90 seconds after asking, and
      not before; and without an approval nothing is accepted. */
  lemma WaitingEnds(w: World, c: nat)
    requires Reachable(w) && c < |w.conns| && w.conns[c].at.Deciding?
    requires w.conns[c].at.ask < |w.asks| && w.asks[w.conns[c].at.ask].sender != Sent(true)
    ensures var s := w.asks[w.conns[c].at.ask].sender; var after := Next(w, Resolve(c));
            && after.log == w.log && c < |after.conns|
            && (after.conns[c].at.Deciding? <==>
                  s != Sent(false) && s != Sender.Dropped && w.now < w.conns[c].at.since + 90_000)
            && (!after.conns[c].at.Deciding? ==>
                after.conns[c].at == (if w.conns[c].requests < 31 then Reading else Closed))
  {
    ReachableInv(w);
    assert ConnPlaced(w.conns, c, w.windows, w.asks);
    hide Inv, Reachable;
  }

  // ----- an Ask whose decision channel is dropped -----

  lemma DroppedStays(w: World, a: nat, act: Action)
    requires Inv(w) && a < |w.asks| && w.asks[a].sender.Dropped?
    ensures a < |Next(w, act).asks| && Next(w, act).asks[a].sender.Dropped?
  {
    hide Inv, Sound, AsksLogged, ConnsLogged, Placed, GrantsLogged, Sized, OneJob, GatesLogged;
    InvOwned(w);
    hide Owned, DoPick, DoShow;
    match act
    case Pick(j) =>
      MovedOthersStay(w, a, j);
    case Show(j) =>
      MovedOthersStay(w, a, j);
    case _ =>
  }

  lemma MovedOthersStay(w: World, a: nat, j: nat)
    requires Owned(w.windows, w.control.pending, w.asks) && a < |w.asks| && w.asks[a].sender.Dropped?
    ensures a < |DoPick(w, j).asks| && DoPick(w, j).asks[a].sender.Dropped?
    ensures a < |DoShow(w, j).asks| && DoShow(w, j).asks[a].sender.Dropped?
  {
    var k := WindowOf(w, j);
    assert k.Some? ==> OwnedBy(w.windows[k.value], k.value, w.asks);
  }

  lemma InvOwned(w: World)
    requires Inv(w)
    ensures Owned(w.windows, w.control.pending, w.asks)
  {
  }

  lemma {:induction false} DroppedForever(w: World, a: nat, later: seq<Action>)
    requires Inv(w) && a < |w.asks| && w.asks[a].sender.Dropped?
    ensures a < |Run(w, later).asks| && Run(w, later).asks[a].sender.Dropped?
    decreases |later|
  {
    if later != [] {
      NextKeeps(w, later[0]);
      DroppedStays(w, a, later[0]);
      DroppedForever(Next(w, later[0]), a, later[1..]);
    }
  }


  /** Such an Ask is not accepted, now or ever. */
  lemma DroppedIsNotAccepted(w: World, a: nat, later: seq<Action>)
    requires Inv(w) && a < |w.asks| && w.asks[a].sender.Dropped?
    ensures forall e :: e in Run(w, later).log && e.Accepted? ==> e.ask != a
  {
    DroppedForever(w, a, later);
    RunKeeps(w, later);
    NotAcceptable(Run(w, later), a);
  }

  lemma NotAcceptable(w: World, a: nat)
    requires Inv(w) && a < |w.asks| && !Acceptable(w.asks[a].sender)
    ensures forall e :: e in w.log && e.Accepted? ==> e.ask != a
  {
    assert AskLogged(w.asks, w.log, a);
    forall i | 0 <= i < |w.log| && w.log[i].Accepted?
      ensures w.log[i].ask != a
    {
      assert !About(w.log[i], Acceptance(a));
    }
  }

  /** An Ask overwritten by a later one before it was decided is never accepted, whoever approves what afterwards. */
  lemma OverwrittenIsNeverAccepted(w: World, j: nat, later: seq<Action>)
    requires Reachable(w) && DoShow(w, j) != w && w.control.pending.Some?
    ensures forall e :: e in Run(DoShow(w, j), later).log && e.Accepted? ==> e.ask != w.control.pending.value
  {
    ReachableInv(w);
    ShowKeeps(w, j);
    assert OwnedBy(w.windows[w.control.jobs[j].window], w.control.jobs[j].window, w.asks);
    DroppedIsNotAccepted(DoShow(w, j), w.control.pending.value, later);
  }

  /** Nor is one that was still undecided in the stopped window, or pending. */
  lemma StoppedIsNeverAccepted(w: World, a: nat, later: seq<Action>)
    requires Reachable(w)
    requires a in Held(w.control.pending)
             || (CurrentWindow(w.control).Some? && a in HeldByWindow(w, CurrentWindow(w.control).value))
    ensures forall e :: e in Run(DoStop(w), later).log && e.Accepted? ==> e.ask != a
  {
    ReachableInv(w);
    StopKeeps(w);
    LostAreUnsent(w);
    DroppedIsNotAccepted(DoStop(w), a, later);
  }

  /** Nor is one the user rejected, before or after. */
  lemma RejectedIsNeverAccepted(w: World, a: nat)
    requires Reachable(w) && Decided(a, false) in w.log
    ensures forall e :: e in w.log && e.Accepted? ==> e.ask != a
  {
    ReachableInv(w);
    RejectedIsSent(w.asks, w.log, a);
    NotAcceptable(w, a);
    hide Inv, Reachable, Sound, AsksLogged;
  }

  lemma RejectedIsSent(asks: seq<Ask>, log: seq<Event>, a: nat)
    requires AsksLogged(asks, log) && Sound(log) && Decided(a, false) in log
    ensures a < |asks| && asks[a].sender == Sent(false)
  {
    hide Sound;
    var i :| 0 <= i < |log| && log[i] == Decided(a, false);
    var d := Last(log, Decision(a));
    assert About(log[i], Decision(a)) && AskLogged(asks, log, a);
    OncePerAsk(log, d.value, Decision(a));
  }

  // ----- what a step adds to the history -----

  ghost predicate Waits(w: World, a: nat) {
    exists c :: 0 <= c < |w.conns| && w.conns[c].at.Deciding? && w.conns[c].at.ask == a
  }

  /** A new event that is no decision is of an open window, and an acceptance is of an Ask its connection waits for,
      or of a new one. */
  ghost predicate FromOpen(w: World, e: Event) {
    !e.Decided? ==>
      && e.site.window < |w.windows| && w.windows[e.site.window].open
      && (e.Accepted? ==> e.ask >= |w.asks| || Waits(w, e.ask))
  }

  ghost predicate Grows(w: World, after: World) {
    && |w.log| <= |after.log| && after.log[..|w.log|] == w.log
    && forall i :: |w.log| <= i < |after.log| ==> FromOpen(w, after.log[i])
  }

  lemma NextGrows(w: World, act: Action)
    requires Inv(w)
    ensures Grows(w, Next(w, act))
  {
    match act
    case AskArrives(c, links) =>
      NextGrowsBy(w, c);
    case Resolve(c) =>
      NextGrowsBy(w, c);
    case UploadArrives(c) =>
      NextGrowsBy(w, c);
    case Stop =>
      assert Next(w, act).log == w.log;
    case Leave(_, _) =>
      assert Next(w, act).log == w.log;
    case Show(_) =>
      assert Next(w, act).log == w.log;
    case _ =>
  }

  lemma NextGrowsBy(w: World, c: nat)
    requires Inv(w)
    ensures forall links :: Grows(w, DoAsk(w, c, links))
    ensures Grows(w, DoResolve(w, c)) && Grows(w, DoUpload(w, c))
  {
    if c < |w.conns| {
      assert ConnPlaced(w.conns, c, w.windows, w.asks);
      hide Inv;
      forall links
        ensures Grows(w, DoAsk(w, c, links))
      {
        AskGrows(w, c, links);
      }
      ResolveGrows(w, c);
    }
  }

  lemma AskGrows(w: World, c: nat, links: bool)
    requires c < |w.conns| && ConnPlaced(w.conns, c, w.windows, w.asks)
    ensures Grows(w, DoAsk(w, c, links))
  {
  }

  lemma ResolveGrows(w: World, c: nat)
    requires c < |w.conns| && ConnPlaced(w.conns, c, w.windows, w.asks)
    ensures Grows(w, DoResolve(w, c)) && Grows(w, DoUpload(w, c))
  {
  }

  /** A window that is over stays so. */
  lemma ClosedStays(w: World, k: nat, act: Action)
    requires k < |w.windows| && !w.windows[k].open
    ensures k < |Next(w, act).windows| && !Next(w, act).windows[k].open
  {
  }

  /** What was added to the history is about other windows, or a decision of the user's. */
  ghost predicate Silent(before: seq<Event>, after: seq<Event>, k: nat) {
    && |before| <= |after| && after[..|before|] == before
    && forall i :: |before| <= i < |after| && !after[i].Decided? ==> after[i].site.window != k
  }

  lemma SilentThen(first: seq<Event>, second: seq<Event>, third: seq<Event>, k: nat)
    requires Silent(first, second, k) && Silent(second, third, k)
    ensures Silent(first, third, k)
  {
    assert third[..|first|] == third[..|second|][..|first|];
    forall i | |first| <= i < |third| && !third[i].Decided?
      ensures third[i].site.window != k
    {
      assert i < |second| ==> third[..|second|][i] == second[i];
    }
  }

  /** After a window is over, nothing of it is accepted, granted or let through. */
  lemma {:induction false} ClosedIsSilent(w: World, k: nat, later: seq<Action>)
    requires Inv(w) && k < |w.windows| && !w.windows[k].open
    ensures Silent(w.log, Run(w, later).log, k)
    decreases |later|
  {
    hide Inv, Next;
    if later != [] {
      var next := Next(w, later[0]);
      NextKeeps(w, later[0]);
      NextGrows(w, later[0]);
      ClosedStays(w, k, later[0]);
      ClosedIsSilent(next, k, later[1..]);
      SilentThen(w.log, next.log, Run(next, later[1..]).log, k);
    }
  }

  /** How a window ends: its job is stopped, or leaves it, or it served without a daemon. */
  predicate Ends(w: World, act: Action, k: nat) {
    match act
    case Stop => CurrentWindow(w.control) == Some(k)
    case Leave(j, _) => WindowOf(w, j) == Some(k) && w.windows[k].hand.None?
    case EndServing(i) => i == k < |w.windows| && !w.windows[k].gated
    case _ => false
  }

  /** It ends in no other way. */
  lemma EndsMeansCloses(w: World, act: Action, k: nat)
    requires k < |w.windows| && w.windows[k].open
    ensures k < |Next(w, act).windows|
    ensures !Next(w, act).windows[k].open <==> Ends(w, act, k)
  {
  }

  /** From the end of a window on, nothing of it is accepted, granted or let through, whoever approves what. */
  lemma EndedIsSilent(w: World, act: Action, k: nat, later: seq<Action>)
    requires Reachable(w) && k < |w.windows| && w.windows[k].open && Ends(w, act, k)
    ensures Silent(w.log, Run(Next(w, act), later).log, k)
  {
    hide Inv, Next, Ends, Run;
    ReachableInv(w);
    NextKeeps(w, act);
    EndsMeansCloses(w, act, k);
    EndIsQuiet(w, act, k);
    ClosedIsSilent(Next(w, act), k, later);
  }

  lemma EndIsQuiet(w: World, act: Action, k: nat)
    requires Ends(w, act, k)
    ensures Next(w, act).log == w.log
  {
  }

  // ----- and the service does serve -----

  ghost predicate WasAccepted(log: seq<Event>, a: nat) {
    exists e :: e in log && e.Accepted? && e.ask == a
  }

  /** An Ask its connection no longer waits for is not waited for again. */
  lemma UnwaitedStays(w: World, a: nat, act: Action)
    requires a < |w.asks| && !Waits(w, a)
    ensures a < |Next(w, act).asks| && !Waits(Next(w, act), a)
  {
    hide DoAsk, DoResolve, DoUpload;
    match act
    case AskArrives(c, links) => UnwaitedAfterRequest(w, a, c, links);
    case Resolve(c) => UnwaitedAfterRequest(w, a, c, false);
    case UploadArrives(c) => UnwaitedAfterRequest(w, a, c, false);
    case _ =>
  }

  lemma UnwaitedAfterRequest(w: World, a: nat, c: nat, links: bool)
    requires a < |w.asks| && !Waits(w, a)
    ensures a < |DoAsk(w, c, links).asks| && !Waits(DoAsk(w, c, links), a)
    ensures a < |DoResolve(w, c).asks| && !Waits(DoResolve(w, c), a)
    ensures a < |DoUpload(w, c).asks| && !Waits(DoUpload(w, c), a)
  {
  }

  lemma {:induction false} UnwaitedIsNotAccepted(w: World, a: nat, later: seq<Action>)
    requires Inv(w) && a < |w.asks| && !Waits(w, a) && !WasAccepted(w.log, a)
    ensures !WasAccepted(Run(w, later).log, a)
    decreases |later|
  {
    hide Inv, Next, Waits;
    if later != [] {
      var next := Next(w, later[0]);
      NextKeeps(w, later[0]);
      NextGrows(w, later[0]);
      UnwaitedStays(w, a, later[0]);
      forall e | e in next.log && e.Accepted?
        ensures e.ask != a
      {
        var i :| 0 <= i < |next.log| && next.log[i] == e;
        assert i < |w.log| ==> e in next.log[..|w.log|];
      }
      UnwaitedIsNotAccepted(next, a, later[1..]);
    }
  }

  /** The approval of a pending Ask reaches the connection it belongs to, in some run, exactly if that connection
      still waits for it: it has not given up, gone away or ended with its window. */
  lemma ApprovalReaches(w: World, a: nat)
    requires Reachable(w) && w.control.pending == Some(a)
    ensures (exists later :: WasAccepted(Run(DoDecide(w, true), later).log, a)) <==> Waits(w, a)
  {
    ReachableInv(w);
    PendingIsShown(w, a);
    NotAcceptable(w, a);
    DecideKeeps(w, true);
    hide Inv, Reachable, DoDecide, DoResolve, Run;
    var decided := DoDecide(w, true);
    if Waits(w, a) {
      WaitingIsReached(w, a);
    } else {
      DecideWakesNone(w, a);
      forall later
        ensures !WasAccepted(Run(decided, later).log, a)
      {
        UnwaitedIsNotAccepted(decided, a, later);
      }
    }
  }

  lemma WaitingIsReached(w: World, a: nat)
    requires Inv(w) && w.control.pending == Some(a) && Waits(w, a)
    ensures exists later :: WasAccepted(Run(DoDecide(w, true), later).log, a)
  {
    hide OneJob, JobsServe, Sized, Owned, Sound, AsksLogged, ConnsLogged, GrantsLogged, GatesLogged;
    var c :| 0 <= c < |w.conns| && w.conns[c].at.Deciding? && w.conns[c].at.ask == a;
    assert ConnPlaced(w.conns, c, w.windows, w.asks);
    ApprovedIsAccepted(w, c);
    hide Inv, DoDecide, DoResolve;
    var decided := DoDecide(w, true);
    assert Run(decided, [Resolve(c)]) == Run(DoResolve(decided, c), []);
    assert WasAccepted(Run(decided, [Resolve(c)]).log, a);
  }

  lemma DecideWakesNone(w: World, a: nat)
    requires a < |w.asks| && !Waits(w, a) && forall e :: e in w.log && e.Accepted? ==> e.ask != a
    ensures var after := DoDecide(w, true); a < |after.asks| && !Waits(after, a) && !WasAccepted(after.log, a)
  {
  }

  lemma PendingIsShown(w: World, a: nat)
    requires Inv(w) && w.control.pending == Some(a)
    ensures a < |w.asks| && w.asks[a].sender.Shown?
  {
  }

  lemma ApprovedIsAccepted(w: World, c: nat)
    requires c < |w.conns| && w.conns[c].at.Deciding? && w.control.pending == Some(w.conns[c].at.ask)
    requires w.conns[c].at.ask < |w.asks| && w.conns[c].site.window < |w.windows|
    ensures var a := w.conns[c].at.ask; var site := w.conns[c].site; var links := w.asks[a].links;
            Accepted(a, site, links, true, w.now) in DoResolve(DoDecide(w, true), c).log
  {
    var a := w.conns[c].at.ask;
    var e := Accepted(a, w.conns[c].site, w.asks[a].links, true, w.now);
    var decided := DoDecide(w, true);
    assert DoResolve(decided, c).log[|decided.log|] == e;
  }

  lemma ApprovedIsGranted(w: World, c: nat)
    requires c < |w.conns| && w.conns[c].at.Deciding? && w.control.pending == Some(w.conns[c].at.ask)
    requires w.conns[c].at.ask < |w.asks| && !w.asks[w.conns[c].at.ask].links
    requires w.conns[c].requests + 1 < MAX_REQUESTS && w.conns[c].site.window < |w.windows|
    requires |Retained(w.windows[w.conns[c].site.window].grants, w.now)| < MAX_GRANTS
    ensures var a := w.conns[c].at.ask; var site := w.conns[c].site; var after := DoResolve(DoDecide(w, true), c);
            && after.now == w.now && c < |after.conns| && after.conns[c].at.Reading? && after.conns[c].site == site
            && site.window < |after.windows|
            && site.ip in after.windows[site.window].grants && after.windows[site.window].grants[site.ip] == w.now
            && after.log == w.log + [Decided(a, true), Accepted(a, site, false, true, w.now), Granted(a, site, w.now)]
  {
  }

  lemma GrantedIsLetThrough(w: World, c: nat)
    requires c < |w.conns| && w.conns[c].at.Reading? && w.conns[c].site.window < |w.windows|
    requires Authorized(w.windows[w.conns[c].site.window].grants, w.conns[c].site.ip, w.now)
    ensures DoUpload(w, c).log == w.log + [LetThrough(w.conns[c].site, w.now)]
  {
  }

  /** The user approves the pending Ask of a waiting connection: its Upload, any time within 120 seconds of that
      being accepted, is let through on that Ask, as long as the window's table has room. */
  lemma ApprovalLetsThrough(w: World, c: nat, elapsed: nat)
    requires c < |w.conns| && w.conns[c].at.Deciding? && w.control.pending == Some(w.conns[c].at.ask)
    requires w.conns[c].at.ask < |w.asks| && !w.asks[w.conns[c].at.ask].links && w.conns[c].requests + 1 < MAX_REQUESTS
    requires w.conns[c].site.window < |w.windows|
    requires |Retained(w.windows[w.conns[c].site.window].grants, w.now)| < MAX_GRANTS
    requires elapsed < GRANT_LIFE
    ensures var a := w.conns[c].at.ask; var site := w.conns[c].site;
            Run(w, [Decide(true), Resolve(c), Tick(elapsed), UploadArrives(c)]).log
              == w.log + [Decided(a, true), Accepted(a, site, false, true, w.now), Granted(a, site, w.now),
                          LetThrough(site, w.now + elapsed)]
  {
    hide DoDecide, DoResolve, DoUpload, Run, Next;
    RunApproval(w, c, elapsed);
    ApprovedIsGranted(w, c);
    var granted := DoResolve(DoDecide(w, true), c);
    GrantedIsLetThrough(granted.(now := granted.now + elapsed), c);
  }

  lemma RunApproval(w: World, c: nat, elapsed: nat)
    ensures var granted := DoResolve(DoDecide(w, true), c);
            Run(w, [Decide(true), Resolve(c), Tick(elapsed), UploadArrives(c)])
              == DoUpload(granted.(now := granted.now + elapsed), c)
  {
    hide DoDecide, DoResolve, DoUpload, Run;
    RunFour(w, [Decide(true), Resolve(c), Tick(elapsed), UploadArrives(c)]);
  }

  lemma RunFour(w: World, s: seq<Action>)
    requires |s| == 4
    ensures Run(w, s) == Next(Next(Next(Next(w, s[0]), s[1]), s[2]), s[3])
  {
    hide Next;
    var w1 := Next(w, s[0]);
    var w2 := Next(w1, s[1]);
    var w3 := Next(w2, s[2]);
    assert Run(w, s) == Run(w1, s[1..]) && s[1..][1..] == s[2..] && s[1..][0] == s[1];
    assert Run(w1, s[1..]) == Run(w2, s[2..]) && s[2..][1..] == s[3..] && s[2..][0] == s[2];
    assert Run(w2, s[2..]) == Run(w3, s[3..]) && s[3..][0] == s[3] && s[3..][1..] == [];
    assert Run(w3, s[3..]) == Run(Next(w3, s[3]), []);
  }
}
