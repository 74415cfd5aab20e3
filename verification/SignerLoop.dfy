/**
  The signer's event receiver and the run loops it feeds, as a system of
  threads taking one step at a time.

  The receiver takes requests from the node in order and sends each event into
  every run loop's channel.  A run loop takes events from its channel, or times
  out waiting.  Stopping sets a shared flag and then posts a wake-up request,
  because the receiver may be blocked waiting for one.  Both a run loop that has
  come to its result and the owner of the signer can stop the receiver.
 */
module SignerLoop {
  import opened Codecs

  type Event = nat

  datatype Request = Post(event: Event) | Unrecognized | Shutdown

  /** Where the receiver is: before either look at the flag, blocked on the server, sending, or gone. */
  datatype Receiver = Top | Checking | Waiting | Forwarding(event: Event, next: nat) | Exited

  /** A run loop waits for an event, runs a pass, and on its final pass sets the flag and wakes the receiver. */
  datatype Phase = Polling | Passing | Signaling | Waking | Finished(some: bool)

  /** `consumed` is what run-loop passes were given, `sent` everything ever sent into the channel. */
  datatype Consumer = Consumer(phase: Phase, channel: seq<Event>, consumed: seq<Event>, sent: seq<Event>)

  /** The owner has not asked to stop, has set the flag, or has also posted the wake-up. */
  datatype Owner = Holding | Flagged | Posted

  /** `taken` are the events the receiver accepted; `sentAtStop` how many each channel had seen when the flag was set. */
  datatype State = State(
    stop: bool, requests: seq<Request>, receiver: Receiver, taken: seq<Event>,
    consumers: seq<Consumer>, owner: Owner, sentAtStop: seq<nat>)

  function Init(n: nat): State {
    State(false, [], Top, [], seq(n, _ => Consumer(Polling, [], [], [])), Holding, [])
  }

  datatype Step =
    | ReceiverStep
    | ReceiveFails
    | ConsumerStep(i: nat, final: bool, delivered: bool)
    | Timeout(i: nat)
    | NodePosts(request: Request)
    | OwnerStops
    | OwnerWakes(delivered: bool)

  function SetStop(s: State): State {
    if s.stop then s
    else s.(stop := true, sentAtStop := seq(|s.consumers|, i requires 0 <= i < |s.consumers| => |s.consumers[i].sent|))
  }

  function WithConsumer(s: State, i: nat, c: Consumer): State
    requires i < |s.consumers|
  {
    s.(consumers := s.consumers[i := c])
  }

  function Deliver(s: State, delivered: bool): State {
    if delivered then s.(requests := s.requests + [Shutdown]) else s
  }

  function TakeRequest(s: State): State
    requires s.requests != []
  {
    var t := s.(requests := s.requests[1..]);
    match s.requests[0]
    case Post(e) => t.(receiver := Forwarding(e, 0), taken := s.taken + [e])
    case Unrecognized => t.(receiver := Top)
    case Shutdown => SetStop(t).(receiver := Exited)
  }

  /** Sending fails once the run loop at the other end is gone; the receiver then gives up. */
  function Send(s: State, e: Event, i: nat): State {
    if i >= |s.consumers| || s.consumers[i].phase.Finished? then s.(receiver := Exited)
    else
      var c := s.consumers[i];
      WithConsumer(s, i, c.(channel := c.channel + [e], sent := c.sent + [e]))
      .(receiver := if i + 1 == |s.consumers| then Top else Forwarding(e, i + 1))
  }

  function ReceiverNext(s: State): Option<State> {
    match s.receiver
    case Top => Some(s.(receiver := if s.stop then Exited else Checking))
    case Checking => Some(s.(receiver := if s.stop then Exited else Waiting))
    case Waiting => if s.requests == [] then None else Some(TakeRequest(s))
    case Forwarding(e, i) => Some(Send(s, e, i))
    case Exited => None
  }

  /** A channel whose sender is gone still gives up the events in it before it reports the end. */
  function ConsumerNext(s: State, i: nat, final: bool, delivered: bool): Option<State>
    requires i < |s.consumers|
  {
    var c := s.consumers[i];
    match c.phase
    case Polling =>
      if c.channel != [] then
        Some(WithConsumer(s, i, Consumer(Passing, c.channel[1..], c.consumed + [c.channel[0]], c.sent)))
      else if s.receiver.Exited? then Some(WithConsumer(s, i, c.(phase := Finished(false))))
      else None
    case Passing => Some(WithConsumer(s, i, c.(phase := if final then Signaling else Polling)))
    case Signaling => Some(SetStop(WithConsumer(s, i, c.(phase := Waking))))
    case Waking => Some(Deliver(WithConsumer(s, i, c.(phase := Finished(true))), delivered))
    case Finished(_) => None
  }

  function Next(s: State, step: Step): Option<State> {
    match step
    case ReceiverStep => ReceiverNext(s)
    case ReceiveFails => if s.receiver.Waiting? then Some(s.(receiver := Top)) else None
    case ConsumerStep(i, final, delivered) =>
      if i < |s.consumers| then ConsumerNext(s, i, final, delivered) else None
    case Timeout(i) =>
      if i < |s.consumers| && s.consumers[i].phase.Polling? && s.consumers[i].channel == [] && !s.receiver.Exited?
      then Some(WithConsumer(s, i, s.consumers[i].(phase := Passing))) else None
    case NodePosts(r) => Some(s.(requests := s.requests + [r]))
    case OwnerStops => if s.owner.Holding? then Some(SetStop(s).(owner := Flagged)) else None
    case OwnerWakes(delivered) => if s.owner.Flagged? then Some(Deliver(s.(owner := Posted), delivered)) else None
  }

  function Run(s: State, steps: seq<Step>): Option<State>
    decreases steps
  {
    if steps == [] then Some(s)
    else match Next(s, steps[0])
         case None => None
         case Some(t) => Run(t, steps[1..])
  }

  // ---------- Safety ----------

  /** How many of the accepted events have been sent into channel `i`. */
  predicate SentSoFar(s: State, i: nat)
    requires i < |s.consumers|
  {
    var n := |s.consumers[i].sent|;
    && n <= |s.taken| && s.consumers[i].sent == s.taken[..n]
    && match s.receiver
       case Forwarding(_, k) => n == if i < k then |s.taken| else |s.taken| - 1
       case Exited => |s.taken| - 1 <= n
       case _ => n == |s.taken|
  }

  /** What was sent since the flag was set. */
  predicate SentSinceStop(s: State, i: nat)
    requires i < |s.consumers| && |s.sentAtStop| == |s.consumers|
  {
    var n, m := |s.consumers[i].sent|, s.sentAtStop[i];
    && m <= n <= m + 1
    && (s.receiver.Waiting? ==> n == m)
    && (s.receiver.Forwarding? && i >= s.receiver.next ==> n == m)
  }

  predicate Inv(s: State) {
    && (s.receiver.Forwarding? ==>
          && s.taken != [] && s.taken[|s.taken| - 1] == s.receiver.event
          && (s.consumers != [] ==> s.receiver.next < |s.consumers|))
    && (s.stop ==> |s.sentAtStop| == |s.consumers|)
    && forall i | 0 <= i < |s.consumers| ::
         var c := s.consumers[i];
         && c.sent == c.consumed + c.channel
         && SentSoFar(s, i)
         && (s.stop ==> SentSinceStop(s, i))
         && (c.phase == Finished(false) ==> c.channel == [] && s.receiver.Exited?)
  }

  lemma InitInv(n: nat)
    ensures Inv(Init(n))
  {
  }

  lemma SetStopInv(s: State)
    requires Inv(s)
    ensures Inv(SetStop(s))
  {
  }

  lemma SendTo(s: State, j: nat)
    requires Inv(s) && s.receiver.Forwarding? && j < |s.consumers|
    requires s.receiver.next < |s.consumers| && !s.consumers[s.receiver.next].phase.Finished?
    ensures var t := Send(s, s.receiver.event, s.receiver.next);
            && |t.consumers| == |s.consumers|
            && t.consumers[j].sent == t.consumers[j].consumed + t.consumers[j].channel
            && SentSoFar(t, j) && (t.stop ==> SentSinceStop(t, j))
  {
    var e, c := s.receiver.event, s.consumers[s.receiver.next];
    assert s.taken == s.taken[..|s.taken| - 1] + [e];
    assert c.sent + [e] == c.consumed + (c.channel + [e]);
    assert SentSoFar(s, j);
  }

  lemma SendInv(s: State)
    requires Inv(s) && s.receiver.Forwarding?
    ensures Inv(Send(s, s.receiver.event, s.receiver.next))
  {
    var k := s.receiver.next;
    if k < |s.consumers| && !s.consumers[k].phase.Finished? {
      var t := Send(s, s.receiver.event, k);
      forall j | 0 <= j < |s.consumers|
        ensures |t.consumers| == |s.consumers|
        ensures t.consumers[j].sent == t.consumers[j].consumed + t.consumers[j].channel
        ensures SentSoFar(t, j) && (t.stop ==> SentSinceStop(t, j))
      {
        SendTo(s, j);
      }
    }
  }

  lemma TakeRequestInv(s: State)
    requires Inv(s) && s.receiver.Waiting? && s.requests != []
    ensures Inv(TakeRequest(s))
  {
    if s.requests[0].Post? {
      var e := s.requests[0].event;
      assert (s.taken + [e])[..|s.taken|] == s.taken;
    } else if s.requests[0].Shutdown? {
      SetStopInv(s.(requests := s.requests[1..]));
    }
  }

  lemma ReceiverInv(s: State)
    requires Inv(s) && ReceiverNext(s).Some?
    ensures Inv(ReceiverNext(s).value)
  {
    match s.receiver
    case Waiting => TakeRequestInv(s);
    case Forwarding(_, _) => SendInv(s);
    case _ =>
  }

  /** A run loop that moves without sending keeps the invariant. */
  lemma MovedInv(s: State, i: nat, c: Consumer)
    requires Inv(s) && i < |s.consumers| && c.sent == s.consumers[i].sent == c.consumed + c.channel
    requires c.phase == Finished(false) ==> c.channel == [] && s.receiver.Exited?
    ensures Inv(WithConsumer(s, i, c))
  {
    var t := WithConsumer(s, i, c);
    forall j | 0 <= j < |t.consumers|
      ensures SentSoFar(t, j) && (t.stop ==> SentSinceStop(t, j))
    {
      assert SentSoFar(s, j) && (s.stop ==> SentSinceStop(s, j));
    }
  }

  lemma ConsumerInv(s: State, i: nat, final: bool, delivered: bool)
    requires Inv(s) && i < |s.consumers| && ConsumerNext(s, i, final, delivered).Some?
    ensures Inv(ConsumerNext(s, i, final, delivered).value)
  {
    var c := s.consumers[i];
    match c.phase
    case Polling =>
      if c.channel != [] {
        var d := Consumer(Passing, c.channel[1..], c.consumed + [c.channel[0]], c.sent);
        assert c.consumed + c.channel == d.consumed + d.channel;
        MovedInv(s, i, d);
      } else {
        MovedInv(s, i, c.(phase := Finished(false)));
      }
    case Passing => MovedInv(s, i, c.(phase := if final then Signaling else Polling));
    case Signaling =>
      MovedInv(s, i, c.(phase := Waking));
      SetStopInv(WithConsumer(s, i, c.(phase := Waking)));
    case Waking => MovedInv(s, i, c.(phase := Finished(true)));
  }

  lemma StepInv(s: State, step: Step)
    requires Inv(s) && Next(s, step).Some?
    ensures Inv(Next(s, step).value)
  {
    match step
    case ReceiverStep => ReceiverInv(s);
    case ConsumerStep(i, final, delivered) => ConsumerInv(s, i, final, delivered);
    case OwnerStops =>
      SetStopInv(s);
      SameThreadsInv(SetStop(s), Next(s, step).value);
    case Timeout(i) => MovedInv(s, i, s.consumers[i].(phase := Passing));
    case ReceiveFails => RetryInv(s);
    case NodePosts(_) => SameThreadsInv(s, Next(s, step).value);
    case OwnerWakes(_) => SameThreadsInv(s, Next(s, step).value);
  }

  /** Neither the queue of requests nor the owner matters to the invariant. */
  lemma SameThreadsInv(s: State, t: State)
    requires Inv(s) && t == s.(requests := t.requests, owner := t.owner)
    ensures Inv(t)
  {
    forall i | 0 <= i < |t.consumers| ensures SentSoFar(t, i) && (t.stop ==> SentSinceStop(t, i)) {
      assert SentSoFar(s, i) && (s.stop ==> SentSinceStop(s, i));
    }
  }

  lemma RetryInv(s: State)
    requires Inv(s) && s.receiver.Waiting?
    ensures Inv(s.(receiver := Top))
  {
    var t := s.(receiver := Top);
    forall i | 0 <= i < |t.consumers| ensures SentSoFar(t, i) && (t.stop ==> SentSinceStop(t, i)) {
      assert SentSoFar(s, i) && (s.stop ==> SentSinceStop(s, i));
    }
  }

  lemma {:induction false} RunInv(s: State, steps: seq<Step>)
    requires Inv(s) && Run(s, steps).Some?
    ensures Inv(Run(s, steps).value)
    decreases steps
  {
    if steps != [] {
      StepInv(s, steps[0]);
      RunInv(Next(s, steps[0]).value, steps[1..]);
    }
  }

  // ---------- What the node posts ----------

  function EventOf(r: Request): seq<Event> {
    match r
    case Post(e) => [e]
    case _ => []
  }

  function EventsIn(requests: seq<Request>): seq<Event> {
    if requests == [] then [] else EventOf(requests[0]) + EventsIn(requests[1..])
  }

  /** The events the node posted, in order. */
  function PostedBy(steps: seq<Step>): seq<Event> {
    if steps == [] then [] else (if steps[0].NodePosts? then EventOf(steps[0].request) else []) + PostedBy(steps[1..])
  }

  lemma {:induction false} EventsInSnoc(requests: seq<Request>, r: Request)
    ensures EventsIn(requests + [r]) == EventsIn(requests) + EventOf(r)
  {
    if requests == [] {
      assert requests + [r] == [r] && [r][1..] == [];
    } else {
      assert (requests + [r])[1..] == requests[1..] + [r];
      EventsInSnoc(requests[1..], r);
    }
  }

  /** The events accepted so far and those still waiting. */
  function Known(s: State): seq<Event> { s.taken + EventsIn(s.requests) }

  lemma StepKeepsPosted(s: State, step: Step)
    requires Next(s, step).Some?
    ensures Known(Next(s, step).value) == Known(s) + if step.NodePosts? then EventOf(step.request) else []
  {
    match step
    case NodePosts(r) => EventsInSnoc(s.requests, r);
    case ReceiverStep => ReceiverKeepsPosted(s);
    case ConsumerStep(i, final, delivered) => ConsumerKeepsPosted(s, i, final, delivered);
    case _ => EventsInSnoc(s.requests, Shutdown);
  }

  lemma ReceiverKeepsPosted(s: State)
    requires ReceiverNext(s).Some?
    ensures Known(ReceiverNext(s).value) == Known(s)
  {
    if s.receiver.Waiting? {
      assert s.requests == [s.requests[0]] + s.requests[1..];
    }
  }

  lemma ConsumerKeepsPosted(s: State, i: nat, final: bool, delivered: bool)
    requires i < |s.consumers| && ConsumerNext(s, i, final, delivered).Some?
    ensures Known(ConsumerNext(s, i, final, delivered).value) == Known(s)
  {
    ConsumerQueues(s, i, final, delivered);
    EventsInSnoc(s.requests, Shutdown);
  }

  lemma ConsumerQueues(s: State, i: nat, final: bool, delivered: bool)
    requires i < |s.consumers| && ConsumerNext(s, i, final, delivered).Some?
    ensures var t := ConsumerNext(s, i, final, delivered).value;
            t.taken == s.taken && (t.requests == s.requests || t.requests == s.requests + [Shutdown])
  {
  }

  lemma {:induction false} RunKeepsPosted(s: State, steps: seq<Step>)
    requires Run(s, steps).Some?
    ensures Known(Run(s, steps).value) == Known(s) + PostedBy(steps)
    decreases steps
  {
    if steps != [] {
      StepKeepsPosted(s, steps[0]);
      RunKeepsPosted(Next(s, steps[0]).value, steps[1..]);
    }
  }

  /** In every interleaving the events the receiver accepted, followed by those still in the queue, are those the node posted, in order. */
  lemma NothingIsLost(n: nat, steps: seq<Step>)
    requires Run(Init(n), steps).Some?
    ensures var s := Run(Init(n), steps).value;
            s.taken + EventsIn(s.requests) == PostedBy(steps)
  {
    RunKeepsPosted(Init(n), steps);
  }

  /** How many run loops at the front are still there. */
  predicate AliveUpTo(s: State, k: nat) {
    k <= |s.consumers| && forall i | 0 <= i < k :: !s.consumers[i].phase.Finished?
  }

  function Receives(k: nat): seq<Step> { seq(k, _ => ReceiverStep) }

  lemma {:induction false} ForwardsFrom(s: State, e: Event, j: nat, k: nat)
    requires s.receiver == Forwarding(e, j) && j < k && AliveUpTo(s, k)
    ensures var r := Run(s, Receives(k - j));
            && r.Some? && |r.value.consumers| == |s.consumers|
            && (forall i | 0 <= i < |s.consumers| ::
                  r.value.consumers[i] ==
                    if j <= i < k then s.consumers[i].(channel := s.consumers[i].channel + [e], sent := s.consumers[i].sent + [e])
                    else s.consumers[i])
            && r.value.receiver == if k == |s.consumers| then Top else Forwarding(e, k)
    decreases k - j
  {
    var t := Send(s, e, j);
    assert Receives(k - j)[1..] == Receives(k - j - 1);
    if j + 1 < k {
      ForwardsFrom(t, e, j + 1, k);
    } else {
      assert Receives(0) == [];
    }
  }

  /**
    A receiver that waits takes the first posted event and, by steps of its own, one for each run loop,
    puts it at the end of every channel up to the first whose run loop is gone.
   */
  lemma EventIsForwarded(s: State, e: Event, k: nat)
    requires s.receiver.Waiting? && s.requests != [] && s.requests[0] == Post(e) && 0 < k && AliveUpTo(s, k)
    ensures var r := Run(s, Receives(k + 1));
            && r.Some? && |r.value.consumers| == |s.consumers|
            && (forall i | 0 <= i < k ::
                  && r.value.consumers[i].channel == s.consumers[i].channel + [e]
                  && r.value.consumers[i].sent == s.consumers[i].sent + [e])
            && r.value.receiver == if k == |s.consumers| then Top else Forwarding(e, k)
  {
    assert Receives(k + 1)[1..] == Receives(k);
    ForwardsFrom(TakeRequest(s), e, 0, k);
  }

  /**
    In every interleaving, what a run loop was given is a prefix, in order, of what was sent to it,
    that a prefix of the events the receiver accepted, and that of the events the node posted; the
    streams of any two run loops agree except that one may lack the final event.
   */
  lemma Streams(n: nat, steps: seq<Step>, i: nat, j: nat)
    requires Run(Init(n), steps).Some? && i < n && j < n
    ensures var s := Run(Init(n), steps).value;
            && |s.consumers| == n
            && s.consumers[i].consumed <= s.consumers[i].sent <= s.taken <= PostedBy(steps)
            && |s.taken| <= |s.consumers[i].sent| + 1
            && -1 <= |s.consumers[i].sent| - |s.consumers[j].sent| <= 1
            && (|s.consumers[i].sent| <= |s.consumers[j].sent| ==> s.consumers[i].sent <= s.consumers[j].sent)
  {
    InitInv(n);
    RunInv(Init(n), steps);
    RunCount(Init(n), steps);
    NothingIsLost(n, steps);
  }

  lemma {:induction false} RunCount(s: State, steps: seq<Step>)
    requires Run(s, steps).Some?
    ensures |Run(s, steps).value.consumers| == |s.consumers|
    decreases steps
  {
    if steps != [] {
      RunCount(Next(s, steps[0]).value, steps[1..]);
    }
  }

  /** After the flag is first set at most one more event reaches any run loop. */
  lemma AtMostOneAfterStop(n: nat, steps: seq<Step>, i: nat)
    requires Run(Init(n), steps).Some? && i < n && Run(Init(n), steps).value.stop
    ensures var s := Run(Init(n), steps).value;
            |s.sentAtStop| == |s.consumers| == n && s.sentAtStop[i] <= |s.consumers[i].sent| <= s.sentAtStop[i] + 1
  {
    InitInv(n);
    RunInv(Init(n), steps);
    RunCount(Init(n), steps);
  }

  /** A run loop that ended because the receiver went away was given every event sent to it. */
  lemma DisconnectedMeansAllConsumed(n: nat, steps: seq<Step>, i: nat)
    requires Run(Init(n), steps).Some? && i < n
    ensures var s := Run(Init(n), steps).value;
            |s.consumers| == n && (s.consumers[i].phase == Finished(false) ==> s.consumers[i].consumed == s.consumers[i].sent)
  {
    InitInv(n);
    RunInv(Init(n), steps);
    RunCount(Init(n), steps);
    var c := Run(Init(n), steps).value.consumers[i];
    assert c.consumed + [] == c.consumed;
  }

  // ---------- Shutdown ----------

  function PhaseRank(p: Phase): nat {
    match p
    case Polling => 1
    case Passing => 4
    case Signaling => 3
    case Waking => 2
    case Finished(_) => 0
  }

  function ConsumerRank(c: Consumer): nat {
    PhaseRank(c.phase) + 4 * |c.channel|
  }

  function ConsumersRank(cs: seq<Consumer>): nat {
    if cs == [] then 0 else ConsumerRank(cs[0]) + ConsumersRank(cs[1..])
  }

  function ReceiverRank(s: State): nat {
    match s.receiver
    case Exited => 0
    case Top => 1
    case Checking => 1
    case Forwarding(_, i) => 2 + (if i <= |s.consumers| then |s.consumers| - i else 0)
    case Waiting => |s.consumers| + 3
  }

  function OwnerRank(o: Owner): nat {
    match o
    case Holding => 2
    case Flagged => 1
    case Posted => 0
  }

  lemma {:induction false} RankUpdate(cs: seq<Consumer>, i: nat, c: Consumer)
    requires i < |cs|
    ensures ConsumersRank(cs[i := c]) == ConsumersRank(cs) - ConsumerRank(cs[i]) + ConsumerRank(c)
  {
    if i == 0 {
      assert cs[i := c][1..] == cs[1..];
    } else {
      RankUpdate(cs[1..], i - 1, c);
      assert cs[i := c][1..] == cs[1..][i - 1 := c];
    }
  }

  /** A receiver step may put one more event, of rank four, into a channel. */
  function Weight(s: State): nat {
    5 * ReceiverRank(s) + ConsumersRank(s.consumers) + OwnerRank(s.owner)
  }

  lemma SendWeight(s: State)
    requires Inv(s) && s.receiver.Forwarding?
    ensures Weight(Send(s, s.receiver.event, s.receiver.next)) < Weight(s)
  {
    var e, i := s.receiver.event, s.receiver.next;
    if i < |s.consumers| && !s.consumers[i].phase.Finished? {
      var c := s.consumers[i];
      RankUpdate(s.consumers, i, c.(channel := c.channel + [e], sent := c.sent + [e]));
    }
  }

  lemma ReceiverWeightFalls(s: State)
    requires Inv(s) && s.stop && ReceiverNext(s).Some?
    ensures Weight(ReceiverNext(s).value) < Weight(s) && ReceiverNext(s).value.stop
  {
    if s.receiver.Forwarding? {
      SendWeight(s);
    }
  }

  lemma ConsumerRankFalls(s: State, i: nat, final: bool, delivered: bool)
    requires i < |s.consumers| && ConsumerNext(s, i, final, delivered).Some?
    ensures var t := ConsumerNext(s, i, final, delivered).value;
            && |t.consumers| == |s.consumers| && t.consumers == s.consumers[i := t.consumers[i]]
            && ConsumerRank(t.consumers[i]) < ConsumerRank(s.consumers[i])
            && t.receiver == s.receiver && t.owner == s.owner && (s.stop ==> t.stop)
  {
  }

  lemma ConsumerWeightFalls(s: State, i: nat, final: bool, delivered: bool)
    requires i < |s.consumers| && ConsumerNext(s, i, final, delivered).Some?
    ensures var t := ConsumerNext(s, i, final, delivered).value;
            Weight(t) < Weight(s) && t.receiver == s.receiver && (s.stop ==> t.stop)
  {
    ConsumerRankFalls(s, i, final, delivered);
    RankUpdate(s.consumers, i, ConsumerNext(s, i, final, delivered).value.consumers[i]);
  }

  /** Waiting for the outside world: a timeout, or a request from the node. */
  predicate IsIdle(step: Step) {
    step.Timeout? || step.NodePosts?
  }

  /** Once the flag is set every step that is not idle brings the threads nearer to their end. */
  lemma ProgressDecreases(s: State, step: Step)
    requires Inv(s) && s.stop && !IsIdle(step) && Next(s, step).Some?
    ensures Weight(Next(s, step).value) < Weight(s) && Next(s, step).value.stop
  {
    match step
    case ReceiverStep => ReceiverWeightFalls(s);
    case ConsumerStep(i, final, delivered) => ConsumerWeightFalls(s, i, final, delivered);
    case _ =>
  }

  /** An idle step keeps the receiver where it is, adds at most three, and timeouts end with the receiver. */
  lemma IdleStep(s: State, step: Step)
    requires IsIdle(step) && Next(s, step).Some?
    ensures var t := Next(s, step).value;
            && t.receiver == s.receiver && t.stop == s.stop
            && Weight(t) <= Weight(s) + (if step.Timeout? then 3 else 0)
            && (step.Timeout? ==> !s.receiver.Exited?)
  {
    if step.Timeout? {
      RankUpdate(s.consumers, step.i, s.consumers[step.i].(phase := Passing));
    }
  }

  function Timeouts(steps: seq<Step>): nat {
    if steps == [] then 0 else (if steps[0].Timeout? then 1 else 0) + Timeouts(steps[1..])
  }

  function Active(steps: seq<Step>): nat {
    if steps == [] then 0 else (if IsIdle(steps[0]) then 0 else 1) + Active(steps[1..])
  }

  /** From any stopped state the threads take a bounded number of steps, apart from waiting. */
  lemma {:induction false} ShutdownIsBounded(s: State, steps: seq<Step>)
    requires Inv(s) && s.stop && Run(s, steps).Some?
    ensures Active(steps) + Weight(Run(s, steps).value) <= Weight(s) + 3 * Timeouts(steps)
    decreases steps
  {
    if steps != [] {
      StepInv(s, steps[0]);
      if IsIdle(steps[0]) {
        IdleStep(s, steps[0]);
      } else {
        ProgressDecreases(s, steps[0]);
      }
      ShutdownIsBounded(Next(s, steps[0]).value, steps[1..]);
    }
  }

  predicate IsReceivers(step: Step) {
    step.ReceiverStep? || step.ReceiveFails?
  }

  function ReceiverSteps(steps: seq<Step>): nat {
    if steps == [] then 0 else (if IsReceivers(steps[0]) then 1 else 0) + ReceiverSteps(steps[1..])
  }

  lemma ReceiverRankStep(s: State, step: Step)
    requires Inv(s) && s.stop && Next(s, step).Some?
    ensures var t := Next(s, step).value;
            ReceiverRank(t) + (if IsReceivers(step) then 1 else 0) <= ReceiverRank(s) && t.stop
  {
    if step.ConsumerStep? {
      ConsumerRankFalls(s, step.i, step.final, step.delivered);
    }
  }

  /** Once the flag is set the receiver takes at most one step for each run loop and three more, in any run. */
  lemma {:induction false} ReceiverEnds(s: State, steps: seq<Step>)
    requires Inv(s) && s.stop && Run(s, steps).Some?
    ensures ReceiverSteps(steps) + ReceiverRank(Run(s, steps).value) <= ReceiverRank(s) <= |s.consumers| + 3
    decreases steps
  {
    if steps != [] {
      StepInv(s, steps[0]);
      ReceiverRankStep(s, steps[0]);
      ReceiverEnds(Next(s, steps[0]).value, steps[1..]);
    }
  }

  function Requests(steps: seq<Step>): nat {
    if steps == [] then 0 else (if steps[0].NodePosts? then 1 else 0) + Requests(steps[1..])
  }

  lemma ExitedStep(s: State, step: Step)
    requires s.receiver.Exited? && Next(s, step).Some?
    ensures var t := Next(s, step).value;
            && t.receiver.Exited?
            && Weight(t) + (if step.NodePosts? then 0 else 1) <= Weight(s)
  {
    if step.ConsumerStep? {
      ConsumerWeightFalls(s, step.i, step.final, step.delivered);
    }
  }

  /** Once the receiver has gone everyone else comes to an end: there are only so many steps but for requests of the node. */
  lemma {:induction false} OthersEnd(s: State, steps: seq<Step>)
    requires s.receiver.Exited? && Run(s, steps).Some?
    ensures |steps| + Weight(Run(s, steps).value) <= Weight(s) + Requests(steps)
    decreases steps
  {
    if steps != [] {
      ExitedStep(s, steps[0]);
      OthersEnd(Next(s, steps[0]).value, steps[1..]);
    }
  }

  predicate AllDone(s: State) {
    s.receiver.Exited? && forall i | 0 <= i < |s.consumers| :: s.consumers[i].phase.Finished?
  }

  predicate SomeoneWakes(s: State) {
    s.owner.Flagged? || exists i | 0 <= i < |s.consumers| :: s.consumers[i].phase.Waking?
  }

  /** A stopped receiver that is still blocked will be woken: by a request in the queue, or by whoever set the flag. */
  predicate WakeComes(s: State) {
    s.stop && s.receiver.Waiting? ==> Shutdown in s.requests || SomeoneWakes(s)
  }

  predicate Delivers(step: Step) {
    (step.ConsumerStep? || step.OwnerWakes?) ==> step.delivered
  }

  lemma WakerStays(s: State, step: Step, t: State)
    requires Next(s, step) == Some(t) && SomeoneWakes(s) && Delivers(step)
    ensures SomeoneWakes(t) || Shutdown in t.requests
  {
    if s.owner.Flagged? {
      assert step.OwnerWakes? ==> t.requests[|t.requests| - 1] == Shutdown;
    } else {
      var i :| 0 <= i < |s.consumers| && s.consumers[i].phase.Waking?;
      if step.ConsumerStep? && step.i == i {
        assert t.requests[|t.requests| - 1] == Shutdown;
      } else {
        WakingKept(s, step, t, i);
      }
    }
  }

  lemma WakingKept(s: State, step: Step, t: State, i: nat)
    requires Next(s, step) == Some(t) && i < |s.consumers| && s.consumers[i].phase.Waking?
    requires !(step.ConsumerStep? && step.i == i)
    ensures |t.consumers| == |s.consumers| && t.consumers[i].phase.Waking?
  {
  }

  lemma WakeComesKept(s: State, step: Step)
    requires Inv(s) && WakeComes(s) && Delivers(step) && Next(s, step).Some?
    ensures WakeComes(Next(s, step).value)
  {
    var t := Next(s, step).value;
    if t.stop && t.receiver.Waiting? {
      if !s.stop {
        if step.ConsumerStep? {
          assert t.consumers[step.i].phase.Waking?;
        }
      } else if Shutdown in s.requests {
        assert s.receiver.Waiting?;
      } else {
        WakerStays(s, step, t);
      }
    }
  }

  lemma {:induction false} RunWakeComes(s: State, steps: seq<Step>)
    requires Inv(s) && WakeComes(s) && Run(s, steps).Some? && forall k | 0 <= k < |steps| :: Delivers(steps[k])
    ensures WakeComes(Run(s, steps).value)
    decreases steps
  {
    if steps != [] {
      WakeComesKept(s, steps[0]);
      StepInv(s, steps[0]);
      RunWakeComes(Next(s, steps[0]).value, steps[1..]);
    }
  }

  /** A step that a thread of the signer can take on its own, without a timeout. */
  predicate IsProgress(step: Step) {
    step.ReceiverStep? || step.ConsumerStep? || step.OwnerWakes?
  }

  ghost predicate CanProgress(s: State) {
    exists step :: IsProgress(step) && Next(s, step).Some?
  }

  lemma NextProgress(s: State) returns (step: Step)
    requires WakeComes(s) && s.stop && !AllDone(s)
    ensures IsProgress(step) && Delivers(step) && Next(s, step).Some?
  {
    if s.owner.Flagged? {
      step := OwnerWakes(true);
    } else if ReceiverNext(s).Some? {
      step := ReceiverStep;
    } else if s.receiver.Exited? {
      var i :| 0 <= i < |s.consumers| && !s.consumers[i].phase.Finished?;
      step := ConsumerStep(i, false, true);
    } else {
      var i :| 0 <= i < |s.consumers| && s.consumers[i].phase.Waking?;
      step := ConsumerStep(i, false, true);
    }
  }

  /** When wake-ups are delivered, no stopped state of any run is stuck before every thread has ended. */
  lemma ShutdownNeverStuck(n: nat, steps: seq<Step>)
    requires Run(Init(n), steps).Some? && forall k | 0 <= k < |steps| :: Delivers(steps[k])
    ensures var s := Run(Init(n), steps).value;
            s.stop && !AllDone(s) ==> CanProgress(s)
  {
    InitInv(n);
    RunWakeComes(Init(n), steps);
    var s := Run(Init(n), steps).value;
    if s.stop && !AllDone(s) {
      var step := NextProgress(s);
    }
  }

  predicate OwnSteps(steps: seq<Step>) {
    forall k | 0 <= k < |steps| :: IsProgress(steps[k]) && Delivers(steps[k])
  }

  lemma {:induction false} RunsToEnd(s: State) returns (steps: seq<Step>)
    requires Inv(s) && WakeComes(s) && s.stop
    ensures OwnSteps(steps) && |steps| <= Weight(s) && Run(s, steps).Some? && AllDone(Run(s, steps).value)
    decreases Weight(s)
  {
    if AllDone(s) {
      steps := [];
    } else {
      var step := NextProgress(s);
      ProgressDecreases(s, step);
      StepInv(s, step);
      WakeComesKept(s, step);
      var rest := RunsToEnd(Next(s, step).value);
      steps := [step] + rest;
      assert steps[1..] == rest;
    }
  }

  lemma {:induction false} RunConcat(s: State, steps: seq<Step>, more: seq<Step>)
    requires Run(s, steps).Some?
    ensures Run(s, steps + more) == Run(Run(s, steps).value, more)
    decreases steps
  {
    if steps == [] {
      assert steps + more == more;
    } else {
      assert (steps + more)[1..] == steps[1..] + more;
      RunConcat(Next(s, steps[0]).value, steps[1..], more);
    }
  }

  /**
    When wake-ups are delivered, from every stopped state of every run the threads can end by steps of
    their own, as few as the measure says: no timeout, request or failed read is needed.
   */
  lemma ShutdownCompletes(n: nat, steps: seq<Step>) returns (more: seq<Step>)
    requires Run(Init(n), steps).Some? && Run(Init(n), steps).value.stop
    requires forall k | 0 <= k < |steps| :: Delivers(steps[k])
    ensures OwnSteps(more) && |more| <= Weight(Run(Init(n), steps).value)
    ensures Run(Init(n), steps + more).Some? && AllDone(Run(Init(n), steps + more).value)
  {
    InitInv(n);
    RunInv(Init(n), steps);
    RunWakeComes(Init(n), steps);
    more := RunsToEnd(Run(Init(n), steps).value);
    RunConcat(Init(n), steps, more);
  }

  // ---------- Lost wake-ups ----------

  /** The flag is set, but the receiver does not know: it waits for a request, and there is none. */
  predicate Blocked(s: State) {
    s.stop && s.receiver.Waiting? && s.requests == []
  }

  /** A failed read, a request of the node, or a wake-up that is delivered. */
  predicate Wakes(s: State, step: Step) {
    match step
    case ReceiveFails => true
    case NodePosts(_) => true
    case OwnerWakes(delivered) => delivered
    case ConsumerStep(i, _, delivered) => delivered && i < |s.consumers| && s.consumers[i].phase.Waking?
    case _ => false
  }

  predicate NeverWakes(s: State, steps: seq<Step>)
    requires Run(s, steps).Some?
    decreases steps
  {
    steps != [] ==> !Wakes(s, steps[0]) && NeverWakes(Next(s, steps[0]).value, steps[1..])
  }

  /** Exactly these three let a blocked receiver go on: at once, or with its next step. */
  lemma BlockedUntilWoken(s: State, step: Step)
    requires Blocked(s) && Next(s, step).Some?
    ensures var t := Next(s, step).value;
            && (Blocked(t) <==> !Wakes(s, step))
            && (Wakes(s, step) && t.receiver.Waiting? ==>
                  ReceiverNext(t).Some? && !ReceiverNext(t).value.receiver.Waiting?)
  {
  }

  /** Without any of the three the receiver stays blocked, in every run, whatever the other threads do. */
  lemma {:induction false} StaysBlocked(s: State, steps: seq<Step>)
    requires Blocked(s) && Run(s, steps).Some? && NeverWakes(s, steps)
    ensures Blocked(Run(s, steps).value)
    decreases steps
  {
    if steps != [] {
      BlockedUntilWoken(s, steps[0]);
      StaysBlocked(Next(s, steps[0]).value, steps[1..]);
    }
  }

  /** The owner's wake-up gets lost: the receiver is blocked. */
  lemma LostWakeUpBlocks()
    ensures var s := Run(Init(1), [ReceiverStep, ReceiverStep, OwnerStops, OwnerWakes(false)]);
            s.Some? && Blocked(s.value) && s.value.owner.Posted?
            && s.value.consumers == [Consumer(Polling, [], [], [])]
  {
    var s0 := Init(1);
    var s1 := Next(s0, ReceiverStep).value;
    var s2 := Next(s1, ReceiverStep).value;
    var s3 := Next(s2, OwnerStops).value;
    var s4 := Next(s3, OwnerWakes(false)).value;
    Chain4(s0, ReceiverStep, s1, ReceiverStep, s2, OwnerStops, s3, OwnerWakes(false), s4);
  }

  /** A run loop that comes to its result later wakes it after all. */
  lemma RunLoopWakes()
    ensures var lost := [ReceiverStep, ReceiverStep, OwnerStops, OwnerWakes(false)];
            var pass := [Timeout(0), ConsumerStep(0, true, true), ConsumerStep(0, true, true), ConsumerStep(0, true, true)];
            var s := Run(Init(1), lost + pass + [ReceiverStep]);
            s.Some? && AllDone(s.value)
  {
    LostWakeUpBlocks();
    var lost := [ReceiverStep, ReceiverStep, OwnerStops, OwnerWakes(false)];
    var pass := [Timeout(0), ConsumerStep(0, true, true), ConsumerStep(0, true, true), ConsumerStep(0, true, true)];
    var s0 := Run(Init(1), lost).value;
    var s1 := Next(s0, Timeout(0)).value;
    var s2 := Next(s1, ConsumerStep(0, true, true)).value;
    var s3 := Next(s2, ConsumerStep(0, true, true)).value;
    var s4 := Next(s3, ConsumerStep(0, true, true)).value;
    Chain4(s0, pass[0], s1, pass[1], s2, pass[2], s3, pass[3], s4);
    RunConcat(Init(1), lost, pass);
    RunConcat(Init(1), lost + pass, [ReceiverStep]);
    assert s4.requests == [Shutdown] && s4.receiver.Waiting?;
    assert [ReceiverStep][1..] == [];
    assert Run(s4, [ReceiverStep]) == Run(Next(s4, ReceiverStep).value, []);
  }

  lemma Chain4(s0: State, a: Step, s1: State, b: Step, s2: State, c: Step, s3: State, d: Step, s4: State)
    requires Next(s0, a) == Some(s1) && Next(s1, b) == Some(s2) && Next(s2, c) == Some(s3) && Next(s3, d) == Some(s4)
    ensures Run(s0, [a, b, c, d]) == Some(s4)
  {
    assert [a, b, c, d][1..] == [b, c, d] && [b, c, d][1..] == [c, d] && [c, d][1..] == [d] && [d][1..] == [];
    assert Run(s3, [d]) == Run(s4, []) == Some(s4);
    assert Run(s2, [c, d]) == Run(s3, [d]);
    assert Run(s1, [b, c, d]) == Run(s2, [c, d]);
  }
}
