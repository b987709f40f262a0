/** The receive service as a state machine: the daemon's handlers and jobs, the receive windows, their connections
    and the clock, one step at a time and interleaved in any way (src/daemon.rs, src/airdrop/mod.rs). */
module Authorization {
  import opened Bytes
  import opened AuthLog
  import opened Sessions
  import opened Daemon

  /** Where the sending half of an Ask's decision channel is. An Ask of a window that does not ask has none. */
  datatype Sender =
    | Queued(window: nat) | InHand(window: nat) | Shown
    | Sent(accepted: bool) | Dropped | Absent

  datatype Ask = Ask(conn: nat, links: bool, sender: Sender)

  /** What a connection waits for: a request, or the decision on its Ask. */
  datatype At = Reading | Deciding(ask: nat, since: nat) | Closed

  datatype Connection = Connection(site: Site, requests: nat, at: At)

  /** A receive window: its grants, the Asks waiting in its channel of eight, the one its job has taken out of it,
      and the connections it serves. */
  datatype Window = Window(
    gated: bool, open: bool, grants: Grants, queue: seq<nat>, hand: Option<nat>, tasks: set<nat>)

  datatype World = World(
    now: nat, control: Control, windows: seq<Window>, conns: seq<Connection>, asks: seq<Ask>, log: seq<Event>)

  const MAX_REQUESTS: nat := 32
  const MAX_TASKS: nat := 4
  const CHANNEL: nat := 8
  const ASK_TIMEOUT: nat := 90_000

  const START: World := World(0, Control(Idle, None, None, []), [], [], [], [])

  datatype Action =
    | Tick(elapsed: nat)
    // control requests
    | Receive(seconds: int) | Send(host: bool) | Stop | Decide(accepted: bool)
    // a job
    | RadioReady(job: nat) | Leave(job: nat, ok: bool) | Pick(job: nat) | Show(job: nat) | Finish(job: nat)
    // a window without a daemon, which asks nobody, and its end
    | Serve | EndServing(window: nat)
    // a window's connections
    | Arrive(window: nat, ip: Address) | Reap(window: nat, conn: nat) | Hangup(conn: nat)
    | AskArrives(conn: nat, links: bool) | Resolve(conn: nat) | UploadArrives(conn: nat)

  // ----- the steps; one that is not enabled changes nothing -----

  function AfterRequest(c: Connection): Connection {
    if c.requests + 1 < MAX_REQUESTS then c.(requests := c.requests + 1, at := Reading) else c.(at := Closed)
  }

  function DropSenders(asks: seq<Ask>, lost: set<nat>): (r: seq<Ask>)
    ensures |r| == |asks|
    ensures forall a :: 0 <= a < |asks| ==> r[a] == if a in lost then asks[a].(sender := Sender.Dropped) else asks[a]
  {
    seq(|asks|, a requires 0 <= a < |asks| => if a in lost then asks[a].(sender := Sender.Dropped) else asks[a])
  }

  function Held(o: Option<nat>): set<nat> {
    if o.Some? then {o.value} else {}
  }

  /** The Asks whose senders go with a window's channel and its job. */
  function HeldByWindow(w: World, k: nat): set<nat> {
    if k < |w.windows| then (set a | a in w.windows[k].queue) + Held(w.windows[k].hand) else {}
  }

  function CloseWindow(windows: seq<Window>, k: nat): seq<Window> {
    if k < |windows| then windows[k := windows[k].(open := false, queue := [], hand := None, tasks := {})] else windows
  }

  /** The connections of a window are aborted. */
  function CloseConns(conns: seq<Connection>, k: nat): (r: seq<Connection>)
    ensures |r| == |conns|
    ensures forall c :: 0 <= c < |conns| ==>
              r[c] == if conns[c].site.window == k then conns[c].(at := Closed) else conns[c]
  {
    seq(|conns|, c requires 0 <= c < |conns| => if conns[c].site.window == k then conns[c].(at := Closed) else conns[c])
  }

  /** The window the stored job serves. */
  function CurrentWindow(c: Control): Option<nat> {
    if c.task.Some? && c.task.value < |c.jobs| && c.jobs[c.task.value].Open?
    then Some(c.jobs[c.task.value].window) else None
  }

  /** The pending Ask is dropped undecided. */
  function WithoutPending(w: World): World {
    w.(control := w.control.(pending := None), asks := DropSenders(w.asks, Held(w.control.pending)))
  }

  /** A window is over: its channel goes away with the Asks in it, and its connections with it. */
  function Close(w: World, k: nat): World {
    w.(windows := CloseWindow(w.windows, k), conns := CloseConns(w.conns, k),
       asks := DropSenders(w.asks, HeldByWindow(w, k)))
  }

  function DoStop(w: World): World {
    var first := WithoutPending(w);
    var k := CurrentWindow(w.control);
    (if k.Some? then Close(first, k.value) else first).(control := AfterStop(w.control))
  }

  function DoDecide(w: World, accepted: bool): World {
    if w.control.pending.Some? && w.control.pending.value < |w.asks| then
      var a := w.control.pending.value;
      w.(control := w.control.(pending := None),
         asks := w.asks[a := w.asks[a].(sender := Sent(accepted))],
         log := w.log + [Decided(a, accepted)])
    else w
  }

  function DoReady(w: World, j: nat): World {
    if j < |w.control.jobs| && w.control.jobs[j].Starting? then
      w.(control := AfterReady(w.control, j, |w.windows|), windows := w.windows + [NewWindow(true)])
    else w
  }

  function NewWindow(gated: bool): Window {
    Window(gated, true, map[], [], None, {})
  }

  function DoEndServing(w: World, k: nat): World {
    if k < |w.windows| && !w.windows[k].gated then Close(w, k) else w
  }

  /** The radio did not come up, the window is over, or the transfer ended. A job that has an Ask in hand waits
      for the lock and does not get here. */
  function DoLeave(w: World, j: nat, ok: bool): World {
    if j >= |w.control.jobs| then w
    else match w.control.jobs[j]
      case Starting => w.(control := w.control.(jobs := w.control.jobs[j := Ending(false)]))
      case Transferring => w.(control := w.control.(jobs := w.control.jobs[j := Ending(ok)]))
      case Open(k) =>
        if k < |w.windows| && w.windows[k].hand.None? then
          Close(w, k).(control := w.control.(jobs := w.control.jobs[j := Ending(ok)]))
        else w
      case _ => w
  }

  /** The window a job serves, if it serves one. */
  function WindowOf(w: World, j: nat): (r: Option<nat>)
    ensures r.Some? ==> r.value < |w.windows|
  {
    if j < |w.control.jobs| && w.control.jobs[j].Open? && w.control.jobs[j].window < |w.windows|
    then Some(w.control.jobs[j].window) else None
  }

  function DoPick(w: World, j: nat): World {
    var k := WindowOf(w, j);
    if k.Some? && w.windows[k.value].hand.None? && w.windows[k.value].queue != []
      && w.windows[k.value].queue[0] < |w.asks|
    then TakeUp(w, k.value) else w
  }

  /** The first Ask of a window's channel moves into its job's hand. */
  function TakeUp(w: World, k: nat): World
    requires k < |w.windows| && w.windows[k].queue != [] && w.windows[k].queue[0] < |w.asks|
  {
    var win := w.windows[k];
    var a := win.queue[0];
    w.(windows := w.windows[k := win.(queue := win.queue[1..], hand := Some(a))],
       asks := w.asks[a := w.asks[a].(sender := InHand(k))])
  }

  /** The Ask still pending is overwritten. */
  function DoShow(w: World, j: nat): World {
    var k := WindowOf(w, j);
    if k.Some? && w.windows[k.value].hand.Some? && w.windows[k.value].hand.value < |w.asks|
    then PutUp(WithoutPending(w), k.value) else w
  }

  function PutUp(w: World, k: nat): World
    requires k < |w.windows| && w.windows[k].hand.Some? && w.windows[k].hand.value < |w.asks|
  {
    var a := w.windows[k].hand.value;
    w.(control := w.control.(pending := Some(a)),
       windows := w.windows[k := w.windows[k].(hand := None)],
       asks := w.asks[a := w.asks[a].(sender := Shown)])
  }

  function DoFinish(w: World, j: nat): World {
    if j < |w.control.jobs| && w.control.jobs[j].Ending? then w.(control := AfterFinish(w.control, j)) else w
  }

  /** Four connections at a time; one more is dropped at once. */
  function DoArrive(w: World, k: nat, ip: Address): World {
    if k < |w.windows| && w.windows[k].open && |w.windows[k].tasks| < MAX_TASKS then
      w.(windows := w.windows[k := w.windows[k].(tasks := w.windows[k].tasks + {|w.conns|})],
         conns := w.conns + [Connection(Site(k, ip), 0, Reading)])
    else w
  }

  function DoReap(w: World, k: nat, c: nat): World {
    if k < |w.windows| && c < |w.conns| && w.conns[c].at.Closed? then
      w.(windows := w.windows[k := w.windows[k].(tasks := w.windows[k].tasks - {c})])
    else w
  }

  function SetConn(w: World, c: nat, to: Connection): World {
    if c < |w.conns| then w.(conns := w.conns[c := to]) else w
  }

  function DoHangup(w: World, c: nat): World {
    if c < |w.conns| then SetConn(w, c, w.conns[c].(at := Closed)) else w
  }

  /** An Ask is accepted: links are saved at once; files get a grant, with nothing awaited in between, unless the
      table is full. */
  function Accept(w: World, c: nat, a: nat, gated: bool): World
    requires c < |w.conns| && a < |w.asks| && w.conns[c].site.window < |w.windows|
  {
    var site := w.conns[c].site;
    var win := w.windows[site.window];
    var seen := w.log + [Accepted(a, site, w.asks[a].links, gated, w.now)];
    if w.asks[a].links then SetConn(w, c, AfterRequest(w.conns[c])).(log := seen)
    else match Enter(win.grants, site.ip, w.now)
      case Ok(g) =>
        SetConn(w, c, AfterRequest(w.conns[c]))
          .(windows := w.windows[site.window := win.(grants := g)], log := seen + [Granted(a, site, w.now)])
      case Err(g) =>
        SetConn(w, c, w.conns[c].(at := Closed)).(windows := w.windows[site.window := win.(grants := g)], log := seen)
  }

  /** `/Ask`. Where the user is asked, the Ask goes into the channel, or is refused when that is full or closed. */
  function DoAsk(w: World, c: nat, links: bool): World {
    if c < |w.conns| && w.conns[c].at.Reading? && w.conns[c].site.window < |w.windows| then
      var k := w.conns[c].site.window;
      var win := w.windows[k];
      var a := |w.asks|;
      if !win.gated then Accept(w.(asks := w.asks + [Ask(c, links, Absent)]), c, a, false)
      else if win.open && |win.queue| < CHANNEL then
        SetConn(w, c, w.conns[c].(at := Deciding(a, w.now)))
          .(asks := w.asks + [Ask(c, links, Queued(k))], windows := w.windows[k := win.(queue := win.queue + [a])])
      else
        SetConn(w, c, AfterRequest(w.conns[c])).(asks := w.asks + [Ask(c, links, Sender.Dropped)])
    else w
  }

  /** The decision arrived, its sender was dropped, or 90 seconds have passed without either. */
  function DoResolve(w: World, c: nat): World {
    if c < |w.conns| && w.conns[c].at.Deciding? && w.conns[c].at.ask < |w.asks|
      && w.conns[c].site.window < |w.windows| then
      var a := w.conns[c].at.ask;
      var s := w.asks[a].sender;
      if s == Sent(true) then Accept(w, c, a, true)
      else if s.Sent? || s.Dropped? || w.now >= w.conns[c].at.since + ASK_TIMEOUT then
        SetConn(w, c, AfterRequest(w.conns[c]))
      else w
    else w
  }

  /** `/Upload`: the gate is passed before any of the body is read. */
  function DoUpload(w: World, c: nat): World {
    if c < |w.conns| && w.conns[c].at.Reading? && w.conns[c].site.window < |w.windows| then
      var site := w.conns[c].site;
      var win := w.windows[site.window];
      var after := w.windows[site.window := win.(grants := win.grants - {site.ip})];
      if Authorized(win.grants, site.ip, w.now) then
        SetConn(w, c, AfterRequest(w.conns[c])).(windows := after, log := w.log + [LetThrough(site, w.now)])
      else
        SetConn(w, c, w.conns[c].(at := Closed)).(windows := after)
    else w
  }

  function Next(w: World, a: Action): World {
    match a
    case Tick(d) => w.(now := w.now + d)
    case Receive(seconds) => w.(control := AfterReceive(w.control, seconds))
    case Send(host) => w.(control := AfterSend(w.control, host))
    case Stop => DoStop(w)
    case Decide(accepted) => DoDecide(w, accepted)
    case RadioReady(j) => DoReady(w, j)
    case Leave(j, ok) => DoLeave(w, j, ok)
    case Pick(j) => DoPick(w, j)
    case Show(j) => DoShow(w, j)
    case Finish(j) => DoFinish(w, j)
    case Serve => w.(windows := w.windows + [NewWindow(false)])
    case EndServing(k) => DoEndServing(w, k)
    case Arrive(k, ip) => DoArrive(w, k, ip)
    case Reap(k, c) => DoReap(w, k, c)
    case Hangup(c) => DoHangup(w, c)
    case AskArrives(c, links) => DoAsk(w, c, links)
    case Resolve(c) => DoResolve(w, c)
    case UploadArrives(c) => DoUpload(w, c)
  }

  function Run(w: World, actions: seq<Action>): World
    decreases |actions|
  {
    if actions == [] then w else Run(Next(w, actions[0]), actions[1..])
  }
}
