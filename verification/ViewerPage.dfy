/**
  The Viewer page, web/viewer.js:22-291: the view on show, the request it has
  outstanding, the tuning-generation rule and reconnecting; then the page at one
  end of a first-in first-out link, a server at the other, and what every run of
  the two keeps.
 */
module ViewerPage {
  import opened Basics

  type Id = string

  datatype Socket = NoSocket | Connecting | Open | Closed

  /** What the page writes. */
  datatype Command = View(id: Id) | Subscribe(id: Id) | Other(line: string)

  /** What the page reads. */
  datatype Message =
    | ReceiverState(screen: Id, generation: nat)
    | CommandResult(ok: bool, command: Command)
    | LinkHealth
    | ViewData
    | Binary(generation: nat)

  /** Everything the page remembers. */
  datatype PageState = PageState(
    active: Id, pending: Option<Id>, latestGeneration: nat, drawn: nat, declined: nat, socket: Socket)

  // -------------------------------------------------------- what each event does

  /** Lines 58-60: the view a screen names, or the first one for a screen this page does not have. */
  function ViewFor(views: seq<Id>, screen: Id): (v: Id)
    requires views != []
    ensures v in views
    ensures screen in views ==> v == screen
  {
    if screen in views then screen else views[0]
  }

  /** Bytes handed to a socket only go anywhere while it is open. */
  function Sent(socket: Socket, cs: seq<Command>): seq<Command> {
    if socket == Open then cs else []
  }

  /** selectView(v, false): only a change of view rebuilds the subscription. */
  function Shown(p: PageState, v: Id): (PageState, seq<Command>) {
    (p.(active := v), if v != p.active then Sent(p.socket, [Subscribe(v)]) else [])
  }

  /**
    selectView(v, true), a click. With no socket nothing is asked for; on one that
    is still connecting the send throws, after the request has been noted.
   */
  function Clicked(p: PageState, v: Id): (PageState, seq<Command>) {
    if p.socket == NoSocket then Shown(p, v)
    else
      (p.(active := v, pending := Some(v)),
       Sent(p.socket, [View(v)]) + (if v != p.active then Sent(p.socket, [Subscribe(v)]) else []))
  }

  /** Lines 236-290. */
  function Received(p: PageState, views: seq<Id>, m: Message): (PageState, seq<Command>)
    requires views != []
  {
    match m
    case Binary(g) => (if g < p.latestGeneration then p.(declined := p.declined + 1) else p.(drawn := p.drawn + 1), [])
    case CommandResult(ok, command) => (if !ok && command.View? then p.(pending := None) else p, [])
    case ReceiverState(screen, g) =>
      var q := p.(latestGeneration := g);
      if q.pending == None || q.pending == Some(screen) then Shown(q.(pending := None), ViewFor(views, screen)) else (q, [])
    case LinkHealth => (p, [])
    case ViewData => (p, [])
  }

  /** Lines 219-226. */
  function Opened(p: PageState): (PageState, seq<Command>) {
    (p.(pending := None, socket := Open), [Subscribe(p.active)])
  }

  // ------------------------------------------------------------------ the page

  class Page {
    const views: seq<Id>
    var active: Id
    var pending: Option<Id>
    var latestGeneration: nat
    var drawn: nat
    var declined: nat
    var socket: Socket

    ghost function Value(): PageState
      reads this
    {
      PageState(active, pending, latestGeneration, drawn, declined, socket)
    }

    /** Page load: the first view is shown before there is a socket. */
    constructor (views: seq<Id>)
      requires views != []
      ensures this.views == views
      ensures Value() == PageState(views[0], None, 0, 0, 0, NoSocket)
    {
      this.views := views;
      active, pending, latestGeneration, drawn, declined, socket := views[0], None, 0, 0, 0, NoSocket;
    }

    method Connect()
      modifies this`socket
      ensures Value() == old(Value()).(socket := Connecting)
    {
      socket := Connecting;
    }

    method OnOpen() returns (sent: seq<Command>)
      modifies this
      ensures (Value(), sent) == Opened(old(Value()))
    {
      socket := Open;
      pending := None;
      sent := SubscribeToActiveView();
    }

    method OnClose()
      modifies this`socket
      ensures Value() == old(Value()).(socket := Closed)
    {
      socket := Closed;
    }

    method SubscribeToActiveView() returns (sent: seq<Command>)
      ensures sent == Sent(socket, [Subscribe(active)])
    {
      sent := Sent(socket, [Subscribe(active)]);
    }

    /** Lines 104-121. */
    method SelectView(v: Id, announce: bool) returns (sent: seq<Command>)
      modifies this
      ensures (Value(), sent) == if announce then Clicked(old(Value()), v) else Shown(old(Value()), v)
    {
      var changed := v != active;
      active := v;
      sent := [];
      if announce && socket != NoSocket {
        pending := Some(v);
        if socket == Connecting {
          assert sent + sent == sent;
          return;
        }
        sent := Sent(socket, [View(v)]);
        assert sent + [] == sent;
      }
      if changed {
        var subscription := SubscribeToActiveView();
        assert [] + subscription == subscription;
        sent := sent + subscription;
      }
    }

    /** Lines 63-67. */
    method ScreenIsSettled(screen: Id) returns (settled: bool)
      modifies this`pending
      ensures settled <==> old(pending) == None || old(pending) == Some(screen)
      ensures pending == if settled then None else old(pending)
    {
      if pending == None {
        return true;
      }
      if pending == Some(screen) {
        pending := None;
        return true;
      }
      return false;
    }

    /** Lines 229-291. */
    method OnMessage(m: Message) returns (sent: seq<Command>)
      requires views != []
      modifies this
      ensures (Value(), sent) == Received(old(Value()), views, m)
    {
      sent := [];
      match m
      case Binary(g) =>
        if g < latestGeneration {
          declined := declined + 1;
        } else {
          drawn := drawn + 1;
        }
      case CommandResult(ok, command) =>
        if !ok && command.View? {
          pending := None;
        }
      case ReceiverState(screen, g) =>
        latestGeneration := g;
        var settled := ScreenIsSettled(screen);
        if settled {
          sent := SelectView(ViewFor(views, screen), false);
        }
      case LinkHealth =>
      case ViewData =>
    }
  }

  // ------------------------------------------------------------------ the system

  /**
    The page, what is in flight each way, and the server's screen. `owed` says the
    server has obeyed this page's last `view` and not yet sent a receiver state;
    `overtaken` that somebody else moved the screen while it was owed.
   */
  datatype System = System(
    page: PageState, toServer: seq<Command>, toPage: seq<Message>, screen: Id, owed: bool, overtaken: bool, arrivals: nat)

  datatype Step =
    | Click(view: Id)
    | Connect
    | Accept
    | Drop
    | Deliver
    | ServerObeys
    | ServerRefuses
    | ServerStates(generation: nat)
    | ServerStreams(message: Message)
    | SomebodyElseSwitches(to: Id)

  function Start(views: seq<Id>, screen: Id): System
    requires views != []
  {
    System(PageState(views[0], None, 0, 0, 0, NoSocket), [], [], screen, false, false, 0)
  }

  /** One step; a step that cannot happen changes nothing. */
  function Next(views: seq<Id>, s: System, step: Step): System
    requires views != []
  {
    match step
    case Click(v) =>
      if v !in views then s
      else
        var (p, sent) := Clicked(s.page, v);
        s.(page := p, toServer := s.toServer + sent, overtaken := false)
    case Connect =>
      if s.page.socket in {NoSocket, Closed} then s.(page := s.page.(socket := Connecting), toServer := [], toPage := []) else s
    case Accept =>
      if s.page.socket != Connecting then s
      else
        var (p, sent) := Opened(s.page);
        s.(page := p, toServer := sent, toPage := [], owed := false, overtaken := false)
    case Drop =>
      if s.page.socket in {Connecting, Open} then s.(page := s.page.(socket := Closed), toServer := [], toPage := []) else s
    case Deliver =>
      if s.page.socket != Open || s.toPage == [] then s
      else
        var (p, sent) := Received(s.page, views, s.toPage[0]);
        s.(page := p, toPage := s.toPage[1..], toServer := s.toServer + sent,
           arrivals := s.arrivals + if s.toPage[0].Binary? then 1 else 0)
    case ServerObeys =>
      if s.page.socket != Open || s.toServer == [] then s
      else
        var c := s.toServer[0];
        var t := s.(toServer := s.toServer[1..], toPage := s.toPage + [CommandResult(true, c)]);
        if c.View? then t.(screen := c.id, owed := true) else t
    case ServerRefuses =>
      if s.page.socket != Open || s.toServer == [] then s
      else s.(toServer := s.toServer[1..], toPage := s.toPage + [CommandResult(false, s.toServer[0])])
    case ServerStates(g) =>
      if s.page.socket != Open then s
      else s.(toPage := s.toPage + [ReceiverState(s.screen, g)], owed := false)
    case ServerStreams(m) =>
      if s.page.socket != Open || m.ReceiverState? || m.CommandResult? then s else s.(toPage := s.toPage + [m])
    case SomebodyElseSwitches(to) =>
      s.(screen := to, overtaken := s.overtaken || (s.owed && to != s.screen))
  }

  function Run(views: seq<Id>, s: System, steps: seq<Step>): System
    requires views != []
    decreases |steps|
  {
    if steps == [] then s else Run(views, Next(views, s, steps[0]), steps[1..])
  }

  // ------------------------------------------------------------------ invariants

  function LastView(cs: seq<Command>): Option<Id> {
    if cs == [] then None
    else if cs[|cs| - 1].View? then Some(cs[|cs| - 1].id)
    else LastView(cs[..|cs| - 1])
  }

  predicate Refusal(m: Message) {
    m.CommandResult? && !m.ok && m.command.View?
  }

  /** A message that will release a request for p when it arrives. */
  predicate Releases(m: Message, p: Id) {
    Refusal(m) || (m.ReceiverState? && m.screen == p)
  }

  /** Some message in the queue will release a request for p. */
  ghost predicate ReleaseComes(ms: seq<Message>, p: Id) {
    exists i :: 0 <= i < |ms| && Releases(ms[i], p)
  }

  /** Whatever the page still waits for is on its way: asked for, obeyed, or already being answered. */
  ghost predicate WillBeReleased(s: System, p: Id) {
    || LastView(s.toServer) == Some(p)
    || (LastView(s.toServer) == None
        && ((s.owed && s.screen == p) || ReleaseComes(s.toPage, p)))
  }

  ghost predicate Inv(views: seq<Id>, s: System) {
    && s.page.active in views
    && (s.page.socket == NoSocket ==> s.page.pending == None)
    && (s.page.pending.Some? ==> s.page.pending.value == s.page.active)
    && (s.page.pending.Some? && s.page.socket == Open && !s.overtaken ==> WillBeReleased(s, s.page.pending.value))
    && s.page.drawn + s.page.declined == s.arrivals
  }

  lemma LastViewAppend(cs: seq<Command>, c: Command)
    ensures LastView(cs + [c]) == if c.View? then Some(c.id) else LastView(cs)
  {
    assert (cs + [c])[..|cs|] == cs;
  }

  /** Taking the oldest command off leaves the last `view`, unless it was the only one. */
  lemma {:induction false} LastViewTail(cs: seq<Command>)
    requires cs != []
    ensures LastView(cs[1..]).Some? ==> LastView(cs[1..]) == LastView(cs)
    ensures LastView(cs[1..]).None? ==> LastView(cs) == if cs[0].View? then Some(cs[0].id) else None
  {
    if |cs| > 1 {
      assert cs[..|cs| - 1][1..] == cs[1..][..|cs| - 2];
      LastViewTail(cs[..|cs| - 1]);
    } else {
      assert cs[..0] == [];
    }
  }

  lemma ReleasedLater(ms: seq<Message>, more: seq<Message>, p: Id)
    requires ReleaseComes(ms, p)
    ensures ReleaseComes(ms + more, p)
  {
    var i :| 0 <= i < |ms| && Releases(ms[i], p);
    assert (ms + more)[i] == ms[i];
  }

  lemma ClickKeepsInv(views: seq<Id>, s: System, v: Id)
    requires views != [] && Inv(views, s)
    ensures Inv(views, Next(views, s, Click(v)))
  {
    if v in views && s.page.socket == Open {
      LastViewAppend(s.toServer, View(v));
      LastViewAppend(s.toServer + [View(v)], Subscribe(v));
      assert s.toServer + ([View(v)] + [Subscribe(v)]) == (s.toServer + [View(v)]) + [Subscribe(v)];
      assert s.toServer + ([View(v)] + []) == s.toServer + [View(v)];
    }
  }

  lemma DeliverKeepsInv(views: seq<Id>, s: System)
    requires views != [] && Inv(views, s)
    ensures Inv(views, Next(views, s, Deliver))
  {
    if s.page.socket == Open && s.toPage != [] {
      var t := Next(views, s, Deliver);
      var m := s.toPage[0];
      if m.ReceiverState? {
        var v := ViewFor(views, m.screen);
        LastViewAppend(s.toServer, Subscribe(v));
        assert s.toServer + [] == s.toServer;
      }
      if t.page.pending.Some? && !t.overtaken {
        var p := t.page.pending.value;
        assert s.page.pending == Some(p) && !Releases(m, p);
        if ReleaseComes(s.toPage, p) {
          var i :| 0 <= i < |s.toPage| && Releases(s.toPage[i], p);
          assert t.toPage[i - 1] == s.toPage[i];
        }
        assert t.toServer == s.toServer;
      }
    }
  }

  lemma ServerKeepsInv(views: seq<Id>, s: System, step: Step)
    requires views != [] && Inv(views, s)
    requires step.ServerObeys? || step.ServerRefuses? || step.ServerStates? || step.ServerStreams?
    ensures Inv(views, Next(views, s, step))
  {
    var t := Next(views, s, step);
    if t != s && s.page.pending.Some? && !s.overtaken {
      var p := s.page.pending.value;
      var m := t.toPage[|s.toPage|];
      assert t.toPage == s.toPage + [m];
      if ReleaseComes(s.toPage, p) { ReleasedLater(s.toPage, [m], p); }
      if Releases(m, p) { assert t.toPage[|s.toPage|] == m; }
      if step.ServerObeys? || step.ServerRefuses? { LastViewTail(s.toServer); }
    }
  }

  lemma StepKeepsInv(views: seq<Id>, s: System, step: Step)
    requires views != [] && Inv(views, s)
    ensures Inv(views, Next(views, s, step))
  {
    match step
    case Click(v) => ClickKeepsInv(views, s, v);
    case Deliver => DeliverKeepsInv(views, s);
    case ServerObeys => ServerKeepsInv(views, s, step);
    case ServerRefuses => ServerKeepsInv(views, s, step);
    case ServerStates(_) => ServerKeepsInv(views, s, step);
    case ServerStreams(_) => ServerKeepsInv(views, s, step);
    case Connect =>
    case Accept =>
    case Drop =>
    case SomebodyElseSwitches(_) =>
  }

  /** The invariant holds after every run. */
  lemma {:induction false} RunKeepsInv(views: seq<Id>, s: System, steps: seq<Step>)
    requires views != [] && Inv(views, s)
    ensures Inv(views, Run(views, s, steps))
    decreases |steps|
  {
    if steps != [] {
      StepKeepsInv(views, s, steps[0]);
      RunKeepsInv(views, Next(views, s, steps[0]), steps[1..]);
    }
  }

  lemma StartHasInv(views: seq<Id>, screen: Id)
    requires views != []
    ensures Inv(views, Start(views, screen))
  {}

  /** In every run, a request outstanding is for the view on show. */
  lemma PendingIsActive(views: seq<Id>, screen: Id, steps: seq<Step>)
    requires views != []
    ensures var p := Run(views, Start(views, screen), steps).page;
      p.active in views && (p.pending.Some? ==> p.pending.value == p.active)
  {
    StartHasInv(views, screen);
    RunKeepsInv(views, Start(views, screen), steps);
  }

  // ----------------------------------------------------------------- convergence

  /** Delivering everything in flight, with nothing else happening. */
  function Drained(views: seq<Id>, s: System): System
    requires views != []
    decreases |s.toPage|
  {
    if s.page.socket != Open || s.toPage == [] then s else Drained(views, Next(views, s, Deliver))
  }

  /** The page shows what the server's screen asks for, and waits for nothing. */
  predicate Settled(views: seq<Id>, s: System)
    requires views != []
  {
    s.page.pending == None && s.page.active == ViewFor(views, s.screen)
  }

  /** A delivery takes one message off, and the page only ever answers with a subscription. */
  lemma DeliveryLeaves(views: seq<Id>, s: System)
    requires views != [] && s.page.socket == Open && s.toPage != []
    ensures var t := Next(views, s, Deliver);
      && t.page.socket == Open && t.toPage == s.toPage[1..] && t.screen == s.screen && t.overtaken == s.overtaken
      && LastView(t.toServer) == LastView(s.toServer)
  {
    var m := s.toPage[0];
    assert s.toServer + [] == s.toServer;
    if m.ReceiverState? {
      LastViewAppend(s.toServer, Subscribe(ViewFor(views, m.screen)));
    }
  }

  /** The server's last word, on its own in flight, settles the page. */
  lemma LastWordSettles(views: seq<Id>, s: System, g: nat)
    requires views != [] && Inv(views, s)
    requires s.page.socket == Open && !s.overtaken && LastView(s.toServer) == None
    requires s.toPage == [ReceiverState(s.screen, g)]
    ensures Settled(views, Next(views, s, Deliver))
  {
    if s.page.pending.Some? {
      assert WillBeReleased(s, s.page.pending.value);
      assert s.toPage[0] == ReceiverState(s.screen, g);
    }
  }

  /**
    The server has taken every `view` and then sent a receiver state as its last
    word. Whatever else is still in flight, and however clicks, refusals and
    states were interleaved before, delivering it all settles the page.
   */
  lemma {:induction false} Converges(views: seq<Id>, s: System, g: nat)
    requires views != [] && Inv(views, s)
    requires s.page.socket == Open && !s.overtaken && LastView(s.toServer) == None
    requires s.toPage != [] && s.toPage[|s.toPage| - 1] == ReceiverState(s.screen, g)
    ensures Settled(views, Drained(views, s))
    decreases |s.toPage|
  {
    hide Next, Inv, Settled, LastView;
    var t := Next(views, s, Deliver);
    DeliveryLeaves(views, s);
    if |s.toPage| == 1 {
      assert s.toPage == [ReceiverState(s.screen, g)];
      LastWordSettles(views, s, g);
      assert Drained(views, t) == t;
    } else {
      DeliverKeepsInv(views, s);
      assert t.toPage[|t.toPage| - 1] == s.toPage[|s.toPage| - 1];
      Converges(views, t, g);
    }
  }

  predicate OneViewer(steps: seq<Step>) {
    forall i | 0 <= i < |steps| :: !steps[i].SomebodyElseSwitches?
  }

  lemma {:induction false} NobodyOvertakes(views: seq<Id>, s: System, steps: seq<Step>)
    requires views != [] && !s.overtaken && OneViewer(steps)
    ensures !Run(views, s, steps).overtaken
    decreases |steps|
  {
    if steps != [] {
      assert !steps[0].SomebodyElseSwitches?;
      assert OneViewer(steps[1..]);
      NobodyOvertakes(views, Next(views, s, steps[0]), steps[1..]);
    }
  }

  /** With one Viewer every run that ends with the server's last word settles, from page load on. */
  lemma OneViewerConverges(views: seq<Id>, screen: Id, steps: seq<Step>, g: nat)
    requires views != [] && OneViewer(steps)
    ensures
      var s := Run(views, Start(views, screen), steps);
      s.page.socket == Open && LastView(s.toServer) == None ==>
        Settled(views, Drained(views, Next(views, s, ServerStates(g))))
  {
    var s := Run(views, Start(views, screen), steps);
    StartHasInv(views, screen);
    RunKeepsInv(views, Start(views, screen), steps);
    NobodyOvertakes(views, Start(views, screen), steps);
    if s.page.socket == Open && LastView(s.toServer) == None {
      StepKeepsInv(views, s, ServerStates(g));
      Converges(views, Next(views, s, ServerStates(g)), g);
    }
  }

  // ------------------------------------------------- when somebody else switches

  lemma ReleaseFirstOrLater(ms: seq<Message>, p: Id)
    requires ms != []
    ensures ReleaseComes(ms, p) <==> Releases(ms[0], p) || ReleaseComes(ms[1..], p)
  {
    if ReleaseComes(ms[1..], p) {
      var i :| 0 <= i < |ms[1..]| && Releases(ms[1..][i], p);
      assert ms[i + 1] == ms[1..][i];
    }
    if ReleaseComes(ms, p) && !Releases(ms[0], p) {
      var i :| 0 <= i < |ms| && Releases(ms[i], p);
      assert ms[1..][i - 1] == ms[i];
    }
  }

  /** A delivery keeps the page's request unless the message releases it, and never makes one. */
  lemma DeliveryReleases(views: seq<Id>, s: System)
    requires views != [] && s.page.socket == Open && s.toPage != []
    ensures Next(views, s, Deliver).page.pending
         == if s.page.pending.Some? && Releases(s.toPage[0], s.page.pending.value) then None else s.page.pending
  {}

  /**
    Whatever is in flight, when the server's own screen is its last word,
    delivering everything settles the page exactly when it waited for nothing or
    some message in flight releases what it waits for.
   */
  lemma {:induction false} LastStateSettlesWhen(views: seq<Id>, s: System, g: nat)
    requires views != [] && s.page.socket == Open
    requires s.toPage != [] && s.toPage[|s.toPage| - 1] == ReceiverState(s.screen, g)
    ensures Settled(views, Drained(views, s)) <==>
              s.page.pending == None || ReleaseComes(s.toPage, s.page.pending.value)
    decreases |s.toPage|
  {
    hide Next, LastView, ReleaseComes, Releases;
    var t := Next(views, s, Deliver);
    DeliveryLeaves(views, s);
    DeliveryReleases(views, s);
    if s.page.pending.Some? { ReleaseFirstOrLater(s.toPage, s.page.pending.value); }
    if |s.toPage| == 1 {
      assert s.toPage == [ReceiverState(s.screen, g)];
      assert Drained(views, t) == t;
      LastWordShows(views, s, g);
      if s.page.pending.Some? { NoRelease(s.toPage[1..], s.page.pending.value); }
    } else {
      assert t.toPage[|t.toPage| - 1] == s.toPage[|s.toPage| - 1];
      LastStateSettlesWhen(views, t, g);
    }
  }

  lemma NoRelease(ms: seq<Message>, p: Id)
    requires ms == []
    ensures !ReleaseComes(ms, p)
  {}

  /** The last word on its own: what it releases, it also shows. */
  lemma LastWordShows(views: seq<Id>, s: System, g: nat)
    requires views != [] && s.page.socket == Open && s.toPage == [ReceiverState(s.screen, g)]
    ensures var t := Next(views, s, Deliver); t.page.pending == None ==> Settled(views, t)
  {}

  /** And in any run that can only fail when somebody else moved the screen before this page was told of its own. */
  lemma OnlyOvertakingLosesThePage(views: seq<Id>, s: System, g: nat)
    requires views != [] && Inv(views, s) && s.page.socket == Open && LastView(s.toServer) == None
    requires s.toPage != [] && s.toPage[|s.toPage| - 1] == ReceiverState(s.screen, g)
    ensures !Settled(views, Drained(views, s)) ==> s.overtaken
    ensures !Settled(views, Drained(views, s)) <==>
              s.page.pending.Some? && !ReleaseComes(s.toPage, s.page.pending.value)
  {
    hide Settled, Drained, Inv, LastView;
    LastStateSettlesWhen(views, s, g);
    if !s.overtaken { Converges(views, s, g); }
  }

  lemma RunFirst(views: seq<Id>, s: System, a: Step, rest: seq<Step>)
    requires views != []
    ensures Run(views, s, [a] + rest) == Run(views, Next(views, s, a), rest)
  {
    assert ([a] + rest)[1..] == rest;
  }

  /** Connected, a click on b, and the server obeying it. */
  lemma AskedAndObeyed(a: Id, b: Id, c: Id) returns (s: System)
    requires a != b && b != c && a != c
    ensures s == System(PageState(b, Some(b), 0, 0, 0, Open), [Subscribe(b)],
                        [CommandResult(true, Subscribe(a)), CommandResult(true, View(b))], b, true, false, 0)
    ensures s == Run([a, b, c], Start([a, b, c], a), [Connect, Accept, Click(b), ServerObeys, ServerObeys])
  {
    var views := [a, b, c];
    var s1 := Next(views, Start(views, a), Connect);
    var s2 := Next(views, s1, Accept);
    assert s2.toServer == [Subscribe(a)];
    var s3 := Next(views, s2, Click(b));
    assert s3.toServer == [Subscribe(a), View(b), Subscribe(b)];
    var s4 := Next(views, s3, ServerObeys);
    assert s4.toServer == [View(b), Subscribe(b)];
    s := Next(views, s4, ServerObeys);
    assert s.toServer == [Subscribe(b)];
    assert s.toPage == [CommandResult(true, Subscribe(a)), CommandResult(true, View(b))];
    hide Next;
    RunFirst(views, Start(views, a), Connect, [Accept, Click(b), ServerObeys, ServerObeys]);
    RunFirst(views, s1, Accept, [Click(b), ServerObeys, ServerObeys]);
    RunFirst(views, s2, Click(b), [ServerObeys, ServerObeys]);
    RunFirst(views, s3, ServerObeys, [ServerObeys]);
    RunFirst(views, s4, ServerObeys, []);
  }

  /**
    It does fail: the page asks for b, the server obeys, and somebody else picks c
    before the next receiver state. The page stays on b with its request open.
   */
  lemma PageLeftBehind(a: Id, b: Id, c: Id)
    requires a != b && b != c && a != c
    ensures
      var views := [a, b, c];
      var asked := Run(views, Start(views, a), [Connect, Accept, Click(b), ServerObeys, ServerObeys]);
      var s := Run(views, asked, [SomebodyElseSwitches(c), ServerStates(1), Deliver, Deliver, Deliver]);
      s.screen == c && s.page.active == b && s.page.pending == Some(b) && s.toPage == []
  {
    var views := [a, b, c];
    var s5 := AskedAndObeyed(a, b, c);
    var s6 := Next(views, s5, SomebodyElseSwitches(c));
    var s7 := Next(views, s6, ServerStates(1));
    assert s7.toPage == [CommandResult(true, Subscribe(a)), CommandResult(true, View(b)), ReceiverState(c, 1)];
    var s8 := Next(views, s7, Deliver);
    var s9 := Next(views, s8, Deliver);
    assert s9.toPage == [ReceiverState(c, 1)];
    var s10 := Next(views, s9, Deliver);
    assert s10.toPage == [] && s10.screen == c && s10.page.active == b && s10.page.pending == Some(b);
    hide Next;
    RunFirst(views, s5, SomebodyElseSwitches(c), [ServerStates(1), Deliver, Deliver, Deliver]);
    RunFirst(views, s6, ServerStates(1), [Deliver, Deliver, Deliver]);
    RunFirst(views, s7, Deliver, [Deliver, Deliver]);
    RunFirst(views, s8, Deliver, [Deliver]);
    RunFirst(views, s9, Deliver, []);
  }

  /** From then on no number of further states names b, so none releases it. */
  lemma {:induction false} StaysLeftBehind(views: seq<Id>, p: PageState, b: Id, ms: seq<Message>)
    requires views != [] && p.pending == Some(b) && p.active == b
    requires forall m <- ms :: !Releases(m, b)
    ensures var q := ReceivedAll(views, p, ms); q.pending == Some(b) && q.active == b
    decreases |ms|
  {
    if ms != [] {
      assert !Releases(ms[0], b);
      StaysLeftBehind(views, Received(p, views, ms[0]).0, b, ms[1..]);
    }
  }

  function ReceivedAll(views: seq<Id>, p: PageState, ms: seq<Message>): PageState
    requires views != []
    decreases |ms|
  {
    if ms == [] then p else ReceivedAll(views, Received(p, views, ms[0]).0, ms[1..])
  }

  // ------------------------------------------------------- two edges on the way

  /** Clicking a, b and a again, the answer to the first a settles the page, the answer to b moves it off and the last a back. */
  lemma FirstAnswerMayFlip(views: seq<Id>, p: PageState, a: Id, b: Id, g: nat)
    requires a in views && b in views && a != b && p.active == a && p.pending == Some(a)
    ensures var answered := Received(p, views, ReceiverState(a, g)).0;
            var moved := Received(answered, views, ReceiverState(b, g)).0;
            var back := Received(moved, views, ReceiverState(a, g)).0;
            && answered.active == a && moved.active == b && back.active == a
            && answered.pending == moved.pending == back.pending == None
  {}

  /** A refusal does not say which request it answers: the older one's releases the newer. */
  lemma OlderRefusalReleasesNewer(views: seq<Id>, p: PageState, b: Id, c: Id)
    requires views != [] && p.socket == Open
    ensures var q := Clicked(Clicked(p, b).0, c).0;
            q.pending == Some(c) && Received(q, views, CommandResult(false, View(b))).0 == q.(pending := None)
  {}
}
