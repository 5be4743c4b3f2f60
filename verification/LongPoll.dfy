/** Parking a long poll: subscribe first, then fetch, then sleep on a one-token channel.
    Commits, the event pump and any number of handlers interleave freely. */
module LongPoll {

  datatype Event = Event(stream: string, subj: string)

  /** Armed: about to fetch. Looked: fetched nothing when the log held `seen` publishes,
      not yet asleep. Asleep: in the select. */
  datatype Phase = Armed | Looked(seen: nat) | Asleep(seen: nat)

  /** A handler with its filter snapshot (the subjects it matches) and whether its
      channel holds a token. */
  datatype Handler = Handler(stream: string, filters: set<string>, phase: Phase, token: bool)

  /** `log` holds the committed publishes in order; the writer still holds the positions
      in `writer`, and `noise` says that it also holds events of other kinds (deliveries,
      acks, and so on). The pump's queue holds batches, by the publishes in them, the pump
      is working through `hand`; `dropped` fell off a full queue. */
  datatype World = World(
    log: seq<Event>, writer: seq<nat>, noise: bool, queue: seq<seq<nat>>, hand: seq<nat>, dropped: set<nat>,
    handlers: map<nat, Handler>)

  const QUEUE_BATCHES: nat := 64

  datatype Step =
    | Commit(ev: Event)          // a publish applied; its event stays with the writer
    | Other                      // any other command that emits an event
    | HandOver                   // after the commit: one non-blocking send of the batch
    | TakeBatch
    | WakeOne                    // the pump's next event reaches the registry
    | Subscribe(id: nat, stream: string, filters: set<string>)
    | Fetch(id: nat)
    | Park(id: nat)
    | Receive(id: nat)
    | TimeOut(id: nat)
    | Poke(id: nat)              // sweeper, nak or consumer update
    | Leave(id: nat)

  predicate Matches(h: Handler, ev: Event) {
    h.stream == ev.stream && ev.subj in h.filters
  }

  predicate Enabled(w: World, e: Step) {
    match e
    case Commit(_) => true
    case Other => true
    case HandOver => true
    case TakeBatch => w.hand == [] && w.queue != []
    case WakeOne => w.hand != [] && w.hand[0] < |w.log|
    case Subscribe(id, _, _) => id !in w.handlers
    case Fetch(id) => id in w.handlers && w.handlers[id].phase.Armed?
    case Park(id) => id in w.handlers && w.handlers[id].phase.Looked?
    case Receive(id) => id in w.handlers && w.handlers[id].phase.Asleep? && w.handlers[id].token
    case TimeOut(id) => id in w.handlers && w.handlers[id].phase.Asleep?
    case Poke(id) => id in w.handlers
    case Leave(id) => true
  }

  function Woken(hs: map<nat, Handler>, ev: Event): map<nat, Handler> {
    map id | id in hs :: if Matches(hs[id], ev) then hs[id].(token := true) else hs[id]
  }

  function Set(w: World, id: nat, h: Handler): World {
    w.(handlers := w.handlers[id := h])
  }

  function Next(w: World, e: Step): World
    requires Enabled(w, e)
  {
    match e
    case Commit(ev) => w.(log := w.log + [ev], writer := w.writer + [|w.log|])
    case Other => w.(noise := true)
    case HandOver =>
      if w.writer == [] && !w.noise then w
      else if |w.queue| < QUEUE_BATCHES then w.(queue := w.queue + [w.writer], writer := [], noise := false)
      else w.(dropped := w.dropped + Members(w.writer), writer := [], noise := false)
    case TakeBatch => w.(hand := w.queue[0], queue := w.queue[1..])
    case WakeOne => w.(hand := w.hand[1..], handlers := Woken(w.handlers, w.log[w.hand[0]]))
    case Subscribe(id, stream, filters) => Set(w, id, Handler(stream, filters, Armed, false))
    case Fetch(id) => Set(w, id, w.handlers[id].(phase := Looked(|w.log|)))
    case Park(id) => Set(w, id, w.handlers[id].(phase := Asleep(w.handlers[id].phase.seen)))
    case Receive(id) => Set(w, id, w.handlers[id].(phase := Armed, token := false))
    case TimeOut(id) => Set(w, id, w.handlers[id].(phase := Armed))
    case Poke(id) => Set(w, id, w.handlers[id].(token := true))
    case Leave(id) => w.(handlers := w.handlers - {id})
  }

  function Members(s: seq<nat>): set<nat> {
    set i | 0 <= i < |s| :: s[i]
  }

  function Queued(q: seq<seq<nat>>): set<nat> {
    if q == [] then {} else Members(q[0]) + Queued(q[1..])
  }

  /** Publishes whose event has yet to reach the registry. */
  function InTransit(w: World): set<nat> {
    Members(w.writer) + Queued(w.queue) + Members(w.hand)
  }

  function Initial(): World {
    World([], [], false, [], [], {}, map[])
  }

  ghost predicate Follows(ws: seq<World>, es: seq<Step>, i: nat)
    requires i < |es| && |ws| == |es| + 1
  {
    Enabled(ws[i], es[i]) && ws[i + 1] == Next(ws[i], es[i])
  }

  ghost predicate Run(ws: seq<World>, es: seq<Step>) {
    && |ws| == |es| + 1
    && ws[0] == Initial()
    && forall i | 0 <= i < |es| :: Follows(ws, es, i)
  }

  // ---- no lost wake-up ---------------------------------------------------------------

  /** A matching publish committed after the handler's last fetch is in transit, was
      dropped, or has left its token. */
  ghost predicate Covered(w: World, h: Handler) {
    h.phase.Armed? || h.token
    || forall p | h.phase.seen <= p < |w.log| && Matches(h, w.log[p]) :: p in InTransit(w) || p in w.dropped
  }

  ghost predicate NoneLost(w: World) {
    forall id | id in w.handlers :: Covered(w, w.handlers[id])
  }

  lemma MembersSnoc(s: seq<nat>, x: nat)
    ensures Members(s + [x]) == Members(s) + {x}
  {
    forall y | y in Members(s) + {x} ensures y in Members(s + [x]) {
      if y == x {
        assert (s + [x])[|s|] == x;
      } else {
        var i :| 0 <= i < |s| && s[i] == y;
        assert (s + [x])[i] == y;
      }
    }
  }

  lemma MembersCons(s: seq<nat>)
    requires s != []
    ensures Members(s) == {s[0]} + Members(s[1..])
  {
    forall y | y in Members(s) ensures y in {s[0]} + Members(s[1..]) {
      var i :| 0 <= i < |s| && s[i] == y;
      if i > 0 {
        assert s[1..][i - 1] == y;
      }
    }
  }

  lemma {:induction false} QueuedSnoc(q: seq<seq<nat>>, b: seq<nat>)
    ensures Queued(q + [b]) == Queued(q) + Members(b)
  {
    if q == [] {
      assert q + [b] == [b];
    } else {
      QueuedSnoc(q[1..], b);
      assert (q + [b])[1..] == q[1..] + [b];
    }
  }

  /** Handing over moves positions along, or drops them, but forgets none. */
  lemma TransitMoves(w: World, e: Step)
    requires Enabled(w, e) && (e.HandOver? || e.TakeBatch?)
    ensures var v := Next(w, e); InTransit(v) + v.dropped == InTransit(w) + w.dropped
  {
    if e.HandOver? {
      QueuedSnoc(w.queue, w.writer);
    }
    assert Members([]) == {};
  }

  lemma CommitKeeps(w: World, ev: Event, h: Handler)
    requires Covered(w, h)
    ensures Covered(Next(w, Commit(ev)), h)
  {
    MembersSnoc(w.writer, |w.log|);
    var v := Next(w, Commit(ev));
    assert forall p | 0 <= p < |w.log| :: v.log[p] == w.log[p];
  }

  lemma MoveKeeps(w: World, e: Step, h: Handler)
    requires Covered(w, h) && Enabled(w, e) && (e.HandOver? || e.TakeBatch?)
    ensures Covered(Next(w, e), h)
  {
    TransitMoves(w, e);
    var v := Next(w, e);
    forall p | p in InTransit(w) || p in w.dropped ensures p in InTransit(v) || p in v.dropped {
      assert p in InTransit(w) + w.dropped;
    }
  }

  lemma WakeKeeps(w: World, h: Handler)
    requires Covered(w, h) && Enabled(w, WakeOne)
    ensures var ev := w.log[w.hand[0]];
            Covered(Next(w, WakeOne), if Matches(h, ev) then h.(token := true) else h)
  {
    MembersCons(w.hand);
  }

  lemma StepKeeps(w: World, e: Step)
    requires NoneLost(w) && Enabled(w, e)
    ensures NoneLost(Next(w, e))
  {
    var v := Next(w, e);
    forall id | id in v.handlers ensures Covered(v, v.handlers[id]) {
      match e
      case Commit(ev) => CommitKeeps(w, ev, w.handlers[id]);
      case HandOver => MoveKeeps(w, e, w.handlers[id]);
      case TakeBatch => MoveKeeps(w, e, w.handlers[id]);
      case WakeOne => WakeKeeps(w, w.handlers[id]);
      case _ => HandlerStepKeeps(w, e, id);
    }
  }

  /** Steps of handlers touch one handler and no event. */
  lemma HandlerStepKeeps(w: World, e: Step, id: nat)
    requires NoneLost(w) && Enabled(w, e) && id in Next(w, e).handlers
    requires !e.Commit? && !e.HandOver? && !e.TakeBatch? && !e.WakeOne?
    ensures Covered(Next(w, e), Next(w, e).handlers[id])
  {
    var v := Next(w, e);
    assert v.log == w.log && InTransit(v) == InTransit(w) && v.dropped == w.dropped;
    if id in w.handlers {
      assert Covered(w, w.handlers[id]);
    }
  }

  lemma {:induction false} RunKeeps(ws: seq<World>, es: seq<Step>, i: nat)
    requires Run(ws, es) && i <= |es|
    ensures NoneLost(ws[i])
  {
    if i > 0 {
      RunKeeps(ws, es, i - 1);
      assert Follows(ws, es, i - 1);
      StepKeeps(ws[i - 1], es[i - 1]);
    }
  }

  /** In every interleaving: if a matching publish committed after a sleeping handler's
      last fetch, its event is still on its way, or fell off the full queue, or the
      handler's channel holds a token. */
  lemma NoLostWakeUp(ws: seq<World>, es: seq<Step>, i: nat, id: nat, p: nat)
    requires Run(ws, es) && i <= |es| && id in ws[i].handlers && ws[i].handlers[id].phase.Asleep?
    requires ws[i].handlers[id].phase.seen <= p < |ws[i].log| && Matches(ws[i].handlers[id], ws[i].log[p])
    ensures ws[i].handlers[id].token || p in InTransit(ws[i]) || p in ws[i].dropped
  {
    RunKeeps(ws, es, i);
  }

  /** Once the pump has caught up, such a handler can always receive, unless the event was
      dropped. */
  lemma DrainedPumpWakes(ws: seq<World>, es: seq<Step>, i: nat, id: nat, p: nat)
    requires Run(ws, es) && i <= |es| && id in ws[i].handlers && ws[i].handlers[id].phase.Asleep?
    requires ws[i].handlers[id].phase.seen <= p < |ws[i].log| && Matches(ws[i].handlers[id], ws[i].log[p])
    requires InTransit(ws[i]) == {} && p !in ws[i].dropped
    ensures Enabled(ws[i], Receive(id))
  {
    NoLostWakeUp(ws, es, i, id, p);
  }

  /** Everything in transit is a position of the log, so the pump never sticks. */
  lemma {:induction false} PumpNeverSticks(ws: seq<World>, es: seq<Step>, i: nat)
    requires Run(ws, es) && i <= |es|
    ensures forall p | p in InTransit(ws[i]) :: p < |ws[i].log|
    ensures ws[i].hand != [] ==> Enabled(ws[i], WakeOne)
  {
    if i > 0 {
      PumpNeverSticks(ws, es, i - 1);
      assert Follows(ws, es, i - 1);
      TransitWithin(ws[i - 1], es[i - 1]);
    }
    if ws[i].hand != [] {
      assert ws[i].hand[0] in Members(ws[i].hand);
      assert ws[i].hand[0] in InTransit(ws[i]);
    }
  }

  lemma TransitWithin(w: World, e: Step)
    requires Enabled(w, e) && forall p | p in InTransit(w) :: p < |w.log|
    ensures forall p | p in InTransit(Next(w, e)) :: p < |Next(w, e).log|
  {
    match e
    case Commit(_) =>
      MembersSnoc(w.writer, |w.log|);
      assert InTransit(Next(w, e)) == InTransit(w) + {|w.log|};
    case HandOver => TransitOnlyShrinks(w, e);
    case TakeBatch => TransitOnlyShrinks(w, e);
    case WakeOne => TransitOnlyShrinks(w, e);
    case _ => assert InTransit(Next(w, e)) == InTransit(w);
  }

  lemma TransitOnlyShrinks(w: World, e: Step)
    requires Enabled(w, e) && (e.HandOver? || e.TakeBatch? || e.WakeOne?)
    ensures InTransit(Next(w, e)) <= InTransit(w)
  {
    match e
    case HandOver => QueuedSnoc(w.queue, w.writer);
    case TakeBatch =>
    case WakeOne => MembersCons(w.hand);
    assert Members([]) == {};
  }

  // ---- what a run leaves behind, step by step ------------------------------------------

  /** A step that puts a token into the handler's channel. */
  predicate Signals(w: World, e: Step, id: nat)
    requires Enabled(w, e)
  {
    || e == Poke(id)
    || (e.WakeOne? && id in w.handlers
        && w.log[w.hand[0]].stream == w.handlers[id].stream && w.log[w.hand[0]].subj in w.handlers[id].filters)
  }

  predicate Concerns(e: Step, id: nat) {
    e == Receive(id) || e == Leave(id) || (e.Subscribe? && e.id == id)
  }

  /** Step n signalled the handler, and it has neither received nor left since. */
  ghost predicate SignalledAt(ws: seq<World>, es: seq<Step>, id: nat, n: nat, i: nat)
    requires |ws| == |es| + 1 && i <= |es|
  {
    && n < i && Enabled(ws[n], es[n]) && Signals(ws[n], es[n], id)
    && forall m | n < m < i :: !Concerns(es[m], id)
  }

  lemma TokenStep(w: World, e: Step, id: nat)
    requires Enabled(w, e) && id in Next(w, e).handlers
    ensures Next(w, e).handlers[id].token <==>
            Signals(w, e, id) || (!Concerns(e, id) && id in w.handlers && w.handlers[id].token)
    ensures !(e.Subscribe? && e.id == id) ==> id in w.handlers
    ensures e != Leave(id)
  {
  }

  /** Over any run: a handler's channel holds a token exactly when a matching publish reached
      the registry, or somebody poked it, since it last received or, if it never did, since
      it subscribed. */
  lemma {:induction false} TokenIff(ws: seq<World>, es: seq<Step>, i: nat, id: nat)
    requires Run(ws, es) && i <= |es| && id in ws[i].handlers
    ensures ws[i].handlers[id].token <==> exists n: nat :: SignalledAt(ws, es, id, n, i)
  {
    if i > 0 {
      assert Follows(ws, es, i - 1);
      TokenStep(ws[i - 1], es[i - 1], id);
      if Signals(ws[i - 1], es[i - 1], id) {
        assert SignalledAt(ws, es, id, i - 1, i);
      } else if !Concerns(es[i - 1], id) {
        var k := i - 1;
        TokenIff(ws, es, k, id);
        if n: nat :| SignalledAt(ws, es, id, n, k) {
          assert SignalledAt(ws, es, id, n, i);
        }
        if n: nat :| SignalledAt(ws, es, id, n, i) {
          assert SignalledAt(ws, es, id, n, k);
        }
      } else {
        assert forall n: nat :: !SignalledAt(ws, es, id, n, i);
      }
    }
  }

  /** So nobody wakes for nothing: every receive had such a signal. */
  lemma ReceiveHadSignal(ws: seq<World>, es: seq<Step>, i: nat, id: nat)
    requires Run(ws, es) && i < |es| && es[i] == Receive(id)
    ensures exists n: nat :: SignalledAt(ws, es, id, n, i)
  {
    assert Follows(ws, es, i);
    TokenIff(ws, es, i, id);
  }

  /** Step n subscribed the handler with this filter, and it has not left since. */
  ghost predicate SubscribedAt(es: seq<Step>, id: nat, h: Handler, n: nat, i: nat)
    requires i <= |es|
  {
    n < i && es[n] == Subscribe(id, h.stream, h.filters) && forall m | n < m < i :: es[m] != Leave(id)
  }

  /** A handler is there from its subscription, and with the filter it gave then, until it
      leaves. */
  lemma {:induction false} PresentIff(ws: seq<World>, es: seq<Step>, i: nat, id: nat, h: Handler)
    requires Run(ws, es) && i <= |es|
    ensures id in ws[i].handlers && ws[i].handlers[id].stream == h.stream && ws[i].handlers[id].filters == h.filters
       <==> exists n: nat :: SubscribedAt(es, id, h, n, i)
  {
    if i > 0 {
      var k := i - 1;
      PresentIff(ws, es, k, id, h);
      assert Follows(ws, es, k);
      if es[k] == Subscribe(id, h.stream, h.filters) {
        assert SubscribedAt(es, id, h, k, i);
      }
      if n: nat :| SubscribedAt(es, id, h, n, k) {
        assert es[k] != Leave(id) ==> SubscribedAt(es, id, h, n, i);
      }
      if n: nat :| SubscribedAt(es, id, h, n, i) {
        assert n < k ==> SubscribedAt(es, id, h, n, k);
      }
    }
  }

  /** Steps after which the handler looks again before it sleeps. */
  predicate Rearms(e: Step, id: nat) {
    Concerns(e, id) || e == TimeOut(id) || e == Fetch(id)
  }

  /** Step n is the handler's last fetch. */
  ghost predicate LastFetch(es: seq<Step>, id: nat, n: nat, i: nat)
    requires i <= |es|
  {
    n < i && es[n] == Fetch(id) && forall m | n < m < i :: !Rearms(es[m], id)
  }

  /** What a handler that is not about to fetch has seen is the log as its last fetch found
      it: it has not looked since. */
  lemma {:induction false} SeenIsLastFetch(ws: seq<World>, es: seq<Step>, i: nat, id: nat) returns (n: nat)
    requires Run(ws, es) && i <= |es| && id in ws[i].handlers && !ws[i].handlers[id].phase.Armed?
    ensures LastFetch(es, id, n, i) && ws[i].handlers[id].phase.seen == |ws[n].log|
  {
    assert Follows(ws, es, i - 1);
    if es[i - 1] == Fetch(id) {
      n := i - 1;
    } else {
      n := SeenIsLastFetch(ws, es, i - 1, id);
    }
  }

  // ---- the pump ------------------------------------------------------------------------

  function Flat(q: seq<seq<nat>>): seq<nat> {
    if q == [] then [] else q[0] + Flat(q[1..])
  }

  lemma {:induction false} FlatSnoc(q: seq<seq<nat>>, b: seq<nat>)
    ensures Flat(q + [b]) == Flat(q) + b
  {
    if q == [] {
      assert q + [b] == [b];
    } else {
      FlatSnoc(q[1..], b);
      assert (q + [b])[1..] == q[1..] + [b];
    }
  }

  /** The publishes in transit in the order in which they will reach the registry. */
  function Pipeline(w: World): seq<nat> {
    w.hand + (Flat(w.queue) + w.writer)
  }

  ghost predicate InOrder(p: seq<nat>, n: nat) {
    && (forall i | 0 <= i < |p| :: p[i] < n)
    && forall i, j | 0 <= i < j < |p| :: p[i] < p[j]
  }

  /** What a step does to the pipeline: a publish joins at the end, a wake takes the first,
      a drop cuts off the end, and nothing else moves it. */
  lemma PipelineStep(w: World, e: Step)
    requires Enabled(w, e)
    ensures var p, q := Pipeline(w), Pipeline(Next(w, e));
            match e
            case Commit(_) => q == p + [|w.log|]
            case WakeOne => p != [] && w.hand[0] == p[0] && q == p[1..]
            case HandOver => q == p || (w.writer != [] && q + w.writer == p && Members(w.writer) <= Next(w, e).dropped)
            case _ => q == p
  {
    match e
    case HandOver => FlatSnoc(w.queue, w.writer);
    case _ =>
  }

  lemma OrderStep(w: World, e: Step)
    requires Enabled(w, e) && InOrder(Pipeline(w), |w.log|)
    ensures InOrder(Pipeline(Next(w, e)), |Next(w, e).log|)
  {
    PipelineStep(w, e);
    var p, q := Pipeline(w), Pipeline(Next(w, e));
    match e
    case WakeOne => assert forall i | 0 <= i < |q| :: q[i] == p[i + 1];
    case HandOver => assert q <= p && forall i | 0 <= i < |q| :: q[i] == p[i];
    case _ =>
  }

  /** Over any run the publishes in transit are in commit order, each once: the pump wakes in
      that order. */
  lemma {:induction false} InCommitOrder(ws: seq<World>, es: seq<Step>, i: nat)
    requires Run(ws, es) && i <= |es|
    ensures InOrder(Pipeline(ws[i]), |ws[i].log|)
  {
    if i > 0 {
      InCommitOrder(ws, es, i - 1);
      assert Follows(ws, es, i - 1);
      OrderStep(ws[i - 1], es[i - 1]);
    }
  }

  /** Step n brings publish p to the registry. */
  ghost predicate WakesAt(ws: seq<World>, es: seq<Step>, n: nat, p: nat)
    requires |ws| == |es| + 1
  {
    n < |es| && es[n].WakeOne? && ws[n].hand != [] && ws[n].hand[0] == p
  }

  /** Over any run every publish is on its way, was dropped, or has reached the registry. */
  lemma {:induction false} PublishFate(ws: seq<World>, es: seq<Step>, i: nat, p: nat)
    requires Run(ws, es) && i <= |es| && p < |ws[i].log|
    ensures p in Pipeline(ws[i]) || p in ws[i].dropped || exists n: nat :: n < i && WakesAt(ws, es, n, p)
  {
    if i > 0 {
      assert Follows(ws, es, i - 1);
      var w, e := ws[i - 1], es[i - 1];
      PipelineStep(w, e);
      DropStep(w, e);
      if p < |w.log| {
        PublishFate(ws, es, i - 1, p);
        if p in Pipeline(w) {
          FateStep(w, e, p);
          if p !in Pipeline(ws[i]) && p !in ws[i].dropped {
            assert WakesAt(ws, es, i - 1, p);
          }
        }
      } else {
        assert Pipeline(ws[i])[|Pipeline(w)|] == p;
      }
    }
  }

  lemma FateStep(w: World, e: Step, p: nat)
    requires Enabled(w, e) && p in Pipeline(w)
    ensures p in Pipeline(Next(w, e)) || p in Next(w, e).dropped || (e.WakeOne? && w.hand[0] == p)
  {
    PipelineStep(w, e);
    var i :| 0 <= i < |Pipeline(w)| && Pipeline(w)[i] == p;
    var q := Pipeline(Next(w, e));
    match e
    case Commit(_) => assert q[i] == p;
    case WakeOne => assert i > 0 ==> q[i - 1] == p;
    case HandOver =>
      if q != Pipeline(w) {
        assert i < |q| ==> q[i] == p;
        assert i >= |q| ==> w.writer[i - |q|] == p;
      }
    case _ =>
  }

  /** The log is the committed publishes in order. */
  function Published(es: seq<Step>): seq<Event> {
    if es == [] then []
    else
      var rest := Published(es[..|es| - 1]);
      if es[|es| - 1].Commit? then rest + [es[|es| - 1].ev] else rest
  }

  lemma {:induction false} LogIsPublished(ws: seq<World>, es: seq<Step>, i: nat)
    requires Run(ws, es) && i <= |es|
    ensures ws[i].log == Published(es[..i])
  {
    if i > 0 {
      LogIsPublished(ws, es, i - 1);
      assert Follows(ws, es, i - 1);
      assert es[..i][..i - 1] == es[..i - 1];
    }
  }

  /** A hand-over drops publishes exactly when it has some and the queue is full, of
      whatever events. */
  lemma HandOverDropsIff(w: World)
    requires Members(w.writer) !! w.dropped
    ensures Next(w, HandOver).dropped != w.dropped <==> w.writer != [] && |w.queue| >= QUEUE_BATCHES
  {
    if w.writer != [] {
      assert w.writer[0] in Members(w.writer);
    }
  }

  /** The hand-over at step k has a publish and meets a full queue. */
  ghost predicate Overflows(ws: seq<World>, es: seq<Step>, k: nat)
    requires k < |es| < |ws|
  {
    es[k].HandOver? && ws[k].writer != [] && |ws[k].queue| >= QUEUE_BATCHES
  }

  lemma DropStep(w: World, e: Step)
    requires Enabled(w, e)
    ensures w.dropped <= Next(w, e).dropped
    ensures Next(w, e).dropped != w.dropped ==> e.HandOver? && w.writer != [] && |w.queue| >= QUEUE_BATCHES
    ensures e.HandOver? && w.writer != [] && |w.queue| >= QUEUE_BATCHES ==> Next(w, e).dropped != {}
  {
    if e.HandOver? && w.writer != [] {
      assert w.writer[0] in Members(w.writer);
    }
  }

  /** Over any run nothing has been dropped if and only if no hand-over with a publish met
      a full queue. */
  lemma {:induction false} NothingDroppedIff(ws: seq<World>, es: seq<Step>, i: nat)
    requires Run(ws, es) && i <= |es|
    ensures ws[i].dropped == {} <==> forall k | 0 <= k < i :: !Overflows(ws, es, k)
  {
    if i > 0 {
      NothingDroppedIff(ws, es, i - 1);
      assert Follows(ws, es, i - 1);
      DropStep(ws[i - 1], es[i - 1]);
      assert Overflows(ws, es, i - 1) ==> ws[i].dropped != {};
    }
  }

  /** So while no hand-over with a publish meets a full queue, no wake-up is ever lost: it
      is in transit or its token is there. */
  lemma NoOverflowNoLoss(ws: seq<World>, es: seq<Step>, i: nat, id: nat, p: nat)
    requires Run(ws, es) && i <= |es| && forall k | 0 <= k < i :: !Overflows(ws, es, k)
    requires id in ws[i].handlers && ws[i].handlers[id].phase.Asleep?
    requires ws[i].handlers[id].phase.seen <= p < |ws[i].log| && Matches(ws[i].handlers[id], ws[i].log[p])
    ensures ws[i].handlers[id].token || p in InTransit(ws[i])
  {
    NothingDroppedIff(ws, es, i);
    NoLostWakeUp(ws, es, i, id, p);
  }

  /** And when it does overflow, the wake-up is lost: a sleeper with an unseen matching
      publish, no token, and nothing on its way. */
  lemma OverflowLosesWakeUp(w: World, id: nat, ev: Event)
    requires id in w.handlers && w.handlers[id].phase == Asleep(|w.log|) && !w.handlers[id].token
    requires Matches(w.handlers[id], ev) && w.writer == [] && |w.queue| == QUEUE_BATCHES
    requires forall p | p in Queued(w.queue) || p in Members(w.hand) :: p < |w.log|
    ensures var v := Next(Next(w, Commit(ev)), HandOver);
            && id in v.handlers && v.handlers[id].phase.Asleep? && !v.handlers[id].token
            && v.handlers[id].phase.seen == |w.log| < |v.log| && Matches(v.handlers[id], v.log[|w.log|])
            && |w.log| !in InTransit(v)
  {
    var v := Next(Next(w, Commit(ev)), HandOver);
    assert Members(v.writer) == {};
  }

  // ---- a run that overflows ------------------------------------------------------------

  /** A run goes on with any enabled step. */
  lemma Extend(ws: seq<World>, es: seq<Step>, e: Step, v: World) returns (ws': seq<World>, es': seq<Step>)
    requires Run(ws, es) && Enabled(ws[|es|], e) && v == Next(ws[|es|], e)
    ensures es' == es + [e] && Run(ws', es') && ws'[|es'|] == v
  {
    ws', es' := ws + [v], es + [e];
    forall i | 0 <= i < |es'| ensures Follows(ws', es', i) {
      if i < |es| {
        assert Follows(ws, es, i);
        assert ws'[i] == ws[i] && es'[i] == es[i] && ws'[i + 1] == ws[i + 1];
      }
    }
  }

  /** One subscriber, and `k` batches without a publish that the pump has not touched. */
  function Backlog(id: nat, ev: Event, k: nat): World {
    World([], [], false, seq(k, _ => []), [], {}, map[id := Handler(ev.stream, {ev.subj}, Armed, false)])
  }

  lemma OneMoreBatch(id: nat, ev: Event, k: nat)
    requires k < QUEUE_BATCHES
    ensures Next(Next(Backlog(id, ev, k), Other), HandOver) == Backlog(id, ev, k + 1)
  {
    assert Backlog(id, ev, k).queue + [[]] == seq(k + 1, _ => []);
  }

  lemma {:induction false} FillQueue(id: nat, ev: Event, k: nat) returns (ws: seq<World>, es: seq<Step>)
    requires k <= QUEUE_BATCHES
    ensures Run(ws, es) && ws[|es|] == Backlog(id, ev, k)
  {
    if k == 0 {
      ws, es := [Initial()], [];
      var e := Subscribe(id, ev.stream, {ev.subj});
      assert Next(Initial(), e) == Backlog(id, ev, 0);
      ws, es := Extend(ws, es, e, Backlog(id, ev, 0));
    } else {
      ws, es := FillQueue(id, ev, k - 1);
      OneMoreBatch(id, ev, k - 1);
      ws, es := Extend(ws, es, Other, Next(Backlog(id, ev, k - 1), Other));
      ws, es := Extend(ws, es, HandOver, Backlog(id, ev, k));
    }
  }

  lemma {:induction false} NoPublishQueued(q: seq<seq<nat>>)
    requires forall b | 0 <= b < |q| :: q[b] == []
    ensures Queued(q) == {}
  {
    if q != [] {
      NoPublishQueued(q[1..]);
      assert Members([]) == {};
    }
  }

  /** A whole run in which a wake-up is lost and the queue never holds a publish: the pump
      lags 64 batches of other events behind, the handler fetches and falls asleep, and the
      first matching publish is dropped. */
  lemma OverflowReached(id: nat, ev: Event) returns (ws: seq<World>, es: seq<Step>)
    ensures Run(ws, es) && id in ws[|es|].handlers
    ensures var w := ws[|es|]; var h := w.handlers[id];
            && w.log == [ev] && Queued(w.queue) == {}
            && h.phase == Asleep(0) && Matches(h, ev) && !h.token && 0 !in InTransit(w)
  {
    ws, es := FillQueue(id, ev, QUEUE_BATCHES);
    var w := Backlog(id, ev, QUEUE_BATCHES);
    NoPublishQueued(w.queue);
    var looked := Next(w, Fetch(id));
    ws, es := Extend(ws, es, Fetch(id), looked);
    var asleep := Next(looked, Park(id));
    ws, es := Extend(ws, es, Park(id), asleep);
    OverflowLosesWakeUp(asleep, id, ev);
    var committed := Next(asleep, Commit(ev));
    ws, es := Extend(ws, es, Commit(ev), committed);
    ws, es := Extend(ws, es, HandOver, Next(committed, HandOver));
  }
}
