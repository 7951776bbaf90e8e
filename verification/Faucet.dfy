/**
 The faucet's claim protocol between the HTTP process and one wallet worker per network, over every interleaving of
 requests, messages, failures, worker exits and clean-ups.
 */
module Faucet {
  import opened Prelude

  type Id = nat

  datatype Network = Preview | Preprod

  datatype Lifecycle = Starting | Syncing | WaitingFunds | Registering | WaitingDust | Ready | Failure

  datatype ClaimState = Queued | Sending | Complete | Failed

  datatype Claim = Claim(network: Network, state: ClaimState, createdAt: nat)
  {
    predicate Terminal() {
      state.Complete? || state.Failed?
    }
  }

  /** What a worker posts. */
  datatype Event = State(state: Lifecycle) | Update(id: Id, claim: ClaimState)
  {
    predicate Ends() {
      Update? && (claim.Complete? || claim.Failed?)
    }
  }

  /** What the worker's wallet is doing: its active claim is the one it transfers or recovers from. */
  datatype Job = Idle | Transfer(id: Id) | Recovering(id: Id)

  /** `Crashed`: the exit is not handled yet. `Gone`: it is handled, and a new worker is not started yet. */
  datatype Worker = Alive(state: Lifecycle, session: bool, job: Job) | Crashed | Gone

  /** A network's proxy in the HTTP process, the message queues in both directions, and the worker. */
  datatype Wallet = Wallet(state: Lifecycle, active: Option<Id>, commands: seq<Id>, events: seq<Event>, worker: Worker)

  /**
     `used` are the ids given out so far; `started` the claims whose transfer was started, in order; `outcomes` records of
     every finished transfer whether it succeeded; `lost` are the claims that were active when their worker's exit was
     handled.
   */
  datatype System = System(claims: map<Id, Claim>, preview: Wallet, preprod: Wallet, used: set<Id>, started: seq<Id>,
                           outcomes: map<Id, bool>, lost: set<Id>)
  {
    function At(n: Network): Wallet {
      match n case Preview => preview case Preprod => preprod
    }

    function With(n: Network, w: Wallet): System {
      match n case Preview => this.(preview := w) case Preprod => this.(preprod := w)
    }
  }

  datatype Action =
    | Post(id: Id, now: nat)
    | Deliver
    | Receive
    | Announce(state: Lifecycle, session: bool)
    | Stage
    | Finish(success: bool)
    | Recover(success: bool)
    | Crash
    | Exit
    | Restart
    | CleanUp(cutoff: nat)

  // ---------- the steps ----------

  /** Why the proxy refuses a claim, as an HTTP status. */
  function Refusal(w: Wallet): Option<nat> {
    if w.state != Ready then Some(503) else if w.active.Some? then Some(429) else None
  }

  /** An update for a claim that was cleaned up has no effect. */
  function SetState(claims: map<Id, Claim>, id: Id, state: ClaimState): map<Id, Claim> {
    if id in claims then claims[id := claims[id].(state := state)] else claims
  }

  /** A message to a worker that has exited is lost. */
  function Posted(w: Wallet, id: Id): Wallet {
    w.(active := Some(id), commands := if w.worker.Alive? then w.commands + [id] else w.commands)
  }

  function Delivered(w: Wallet): Wallet
    requires w.events != []
  {
    var rest := w.(events := w.events[1..]);
    match w.events[0]
    case State(state) => rest.(state := state)
    case Update(_, _) => if w.events[0].Ends() then rest.(active := None) else rest
  }

  /** Whether the worker's wallet takes a claim. */
  predicate Accepts(w: Worker) {
    w.Alive? && w.state == Ready && w.session && w.job.Idle?
  }

  function Received(w: Wallet): Wallet
    requires w.commands != [] && w.worker.Alive?
  {
    var id := w.commands[0];
    if Accepts(w.worker) then
      w.(commands := w.commands[1..], worker := w.worker.(job := Transfer(id)),
         events := w.events + [Update(id, Queued), Update(id, Sending)])
    else w.(commands := w.commands[1..], events := w.events + [Update(id, Failed)])
  }

  function Announced(w: Wallet, state: Lifecycle, session: bool): Wallet
    requires w.worker.Alive?
  {
    w.(worker := w.worker.(state := state, session := session), events := w.events + [State(state)])
  }

  function Staged(w: Wallet): Wallet
    requires w.worker.Alive? && w.worker.job.Transfer?
  {
    w.(events := w.events + [Update(w.worker.job.id, Sending)])
  }

  function Finished(w: Wallet, success: bool): Wallet
    requires w.worker.Alive? && w.worker.job.Transfer?
  {
    var id := w.worker.job.id;
    if success then w.(worker := w.worker.(job := Idle), events := w.events + [Update(id, Complete)])
    else w.(worker := w.worker.(state := Syncing, job := Recovering(id)),
            events := w.events + [Update(id, Failed), State(Syncing)])
  }

  /** After a failed recovery the wallet is rebuilt, which starts by announcing that it is syncing. */
  function Recovered(w: Wallet, success: bool): Wallet
    requires w.worker.Alive? && w.worker.job.Recovering?
  {
    var state := if success then Ready else Syncing;
    w.(worker := w.worker.(state := state, job := Idle), events := w.events + [State(state)])
  }

  function Exited(w: Wallet): Wallet {
    w.(state := Failure, active := None, events := [], worker := Gone)
  }

  function Restarted(w: Wallet): Wallet {
    w.(commands := [], events := [State(Starting)], worker := Alive(Starting, false, Idle))
  }

  /** Whether an action can happen at a network. */
  predicate Enabled(s: System, n: Network, a: Action) {
    var w := s.At(n);
    match a
    case Post(id, _) => id !in s.used
    case Deliver => w.events != []
    case Receive => w.commands != [] && w.worker.Alive?
    case Announce(_, _) => w.worker.Alive?
    case Stage => w.worker.Alive? && w.worker.job.Transfer?
    case Finish(_) => w.worker.Alive? && w.worker.job.Transfer?
    case Recover(_) => w.worker.Alive? && w.worker.job.Recovering?
    case Crash => w.worker.Alive?
    case Exit => w.worker.Crashed?
    case Restart => w.worker.Gone?
    case CleanUp(_) => true
  }

  function Step(s: System, n: Network, a: Action): System
    requires Enabled(s, n, a)
  {
    var w := s.At(n);
    match a
    case Post(id, now) =>
      if Refusal(w).Some? then s.(used := s.used + {id})
      else s.With(n, Posted(w, id)).(claims := s.claims[id := Claim(n, Queued, now)], used := s.used + {id})
    case Deliver =>
      var e := w.events[0];
      s.With(n, Delivered(w)).(claims := if e.Update? then SetState(s.claims, e.id, e.claim) else s.claims)
    case Receive =>
      s.With(n, Received(w)).(started := if Accepts(w.worker) then s.started + [w.commands[0]] else s.started)
    case Announce(state, session) => s.With(n, Announced(w, state, session))
    case Stage => s.With(n, Staged(w))
    case Finish(success) => s.With(n, Finished(w, success)).(outcomes := s.outcomes[w.worker.job.id := success])
    case Recover(success) => s.With(n, Recovered(w, success))
    case Crash => s.With(n, w.(commands := [], worker := Crashed))
    case Exit =>
      s.With(n, Exited(w)).(claims := if w.active.Some? then SetState(s.claims, w.active.value, Failed) else s.claims,
                            lost := if w.active.Some? then s.lost + {w.active.value} else s.lost)
    case Restart => s.With(n, Restarted(w))
    case CleanUp(cutoff) => s.(claims := map id | id in s.claims && s.claims[id].createdAt >= cutoff :: s.claims[id])
  }

  // ---------- the invariant ----------

  predicate NoUpdates(events: seq<Event>) {
    forall i :: 0 <= i < |events| ==> !events[i].Update?
  }

  /** Updates are about the active claim, and none follows the one that ends it. */
  predicate EventsOk(active: Option<Id>, events: seq<Event>) {
    && (forall i :: 0 <= i < |events| && events[i].Update? ==> active == Some(events[i].id))
    && (forall i, j :: 0 <= i < j < |events| && events[i].Ends() ==> !events[j].Update?)
  }

  predicate Ended(events: seq<Event>) {
    exists i :: 0 <= i < |events| && events[i].Ends()
  }

  /**
     The active claim is in exactly one place: its command is under way to the worker, the worker transfers it, the event
     that ends it is under way back, or the worker has exited.
   */
  predicate QueuesOk(w: Wallet) {
    && EventsOk(w.active, w.events)
    && (w.commands != [] ==> w.active.Some? && w.commands == [w.active.value] && NoUpdates(w.events))
    && match w.worker
       case Gone => w.state != Ready && w.active.None? && w.commands == [] && w.events == []
       case Crashed => w.commands == []
       case Alive(_, _, job) =>
         && (job.Transfer? ==> w.active == Some(job.id) && w.commands == [] && !Ended(w.events))
         && (w.active.Some? ==> w.commands != [] || job.Transfer? || Ended(w.events))
  }

  /** A claim that has not ended is its network's active claim; the active claim, if still listed, has not ended. */
  predicate ClaimsOk(claims: map<Id, Claim>, n: Network, active: Option<Id>) {
    && (forall id :: id in claims && claims[id].network == n && !claims[id].Terminal() ==> active == Some(id))
    && (active.Some? && active.value in claims ==> claims[active.value].network == n && !claims[active.value].Terminal())
  }

  predicate WalletIdsOk(w: Wallet, used: set<Id>, started: seq<Id>) {
    (w.active.Some? ==> w.active.value in used) && (forall id :: id in w.commands ==> id !in started)
  }

  /** Every id was given out once, and no transfer was started twice or is still to be started after it was. */
  predicate IdsOk(s: System) {
    && (forall id :: id in s.claims ==> id in s.used)
    && (forall id :: id in s.started ==> id in s.used)
    && (forall i, j :: 0 <= i < j < |s.started| ==> s.started[i] != s.started[j])
    && WalletIdsOk(s.preview, s.used, s.started) && WalletIdsOk(s.preprod, s.used, s.started)
    && (s.preview.active.Some? ==> s.preview.active != s.preprod.active)
  }

  ghost predicate Valid(s: System) {
    && IdsOk(s)
    && forall n: Network :: QueuesOk(s.At(n)) && ClaimsOk(s.claims, n, s.At(n).active)
  }

  // ---------- every step keeps it ----------

  lemma PostKeepsQueues(w: Wallet, id: Id)
    requires QueuesOk(w) && Refusal(w).None?
    ensures QueuesOk(Posted(w, id))
  {
    assert NoUpdates(w.events);
  }

  lemma DeliverKeepsQueues(w: Wallet)
    requires QueuesOk(w) && w.events != []
    ensures QueuesOk(Delivered(w))
  {
    var e, rest := w.events[0], w.events[1..];
    assert forall i :: 0 <= i < |rest| ==> rest[i] == w.events[i + 1];
    if e.Ends() {
      assert NoUpdates(rest);
    } else if Ended(w.events) {
      var i :| 0 <= i < |w.events| && w.events[i].Ends();
      assert rest[i - 1].Ends();
    }
  }

  lemma AppendEvents(active: Option<Id>, events: seq<Event>, e: Event)
    requires EventsOk(active, events) && (e.Update? ==> active == Some(e.id) && !Ended(events))
    ensures EventsOk(active, events + [e]) && (Ended(events + [e]) <==> Ended(events) || e.Ends())
  {
    var all := events + [e];
    if Ended(events) {
      var i :| 0 <= i < |events| && events[i].Ends();
      assert all[i].Ends();
    }
    if e.Ends() {
      assert all[|events|].Ends();
    }
  }

  lemma ReceiveKeepsQueues(w: Wallet)
    requires QueuesOk(w) && w.commands != [] && w.worker.Alive?
    ensures QueuesOk(Received(w))
  {
    var id := w.commands[0];
    assert !Ended(w.events);
    if Accepts(w.worker) {
      AppendEvents(w.active, w.events, Update(id, Queued));
      AppendEvents(w.active, w.events + [Update(id, Queued)], Update(id, Sending));
      assert w.events + [Update(id, Queued)] + [Update(id, Sending)] == w.events + [Update(id, Queued), Update(id, Sending)];
    } else {
      AppendEvents(w.active, w.events, Update(id, Failed));
    }
  }

  lemma WorkerKeepsQueues(w: Wallet, a: Action)
    requires QueuesOk(w) && w.worker.Alive?
    ensures a.Announce? ==> QueuesOk(Announced(w, a.state, a.session))
    ensures a.Stage? && w.worker.job.Transfer? ==> QueuesOk(Staged(w))
    ensures a.Finish? && w.worker.job.Transfer? ==> QueuesOk(Finished(w, a.success))
    ensures a.Recover? && w.worker.job.Recovering? ==> QueuesOk(Recovered(w, a.success))
  {
    match a
    case Announce(state, _) => AppendEvents(w.active, w.events, State(state));
    case Stage =>
      if w.worker.job.Transfer? {
        AppendEvents(w.active, w.events, Update(w.worker.job.id, Sending));
      }
    case Finish(success) =>
      if w.worker.job.Transfer? {
        FinishKeepsQueues(w, success);
      }
    case Recover(success) => AppendEvents(w.active, w.events, State(if success then Ready else Syncing));
    case _ =>
  }

  lemma FinishKeepsQueues(w: Wallet, success: bool)
    requires QueuesOk(w) && w.worker.Alive? && w.worker.job.Transfer?
    ensures QueuesOk(Finished(w, success))
  {
    var id := w.worker.job.id;
    if success {
      AppendEvents(w.active, w.events, Update(id, Complete));
    } else {
      AppendEvents(w.active, w.events, Update(id, Failed));
      AppendEvents(w.active, w.events + [Update(id, Failed)], State(Syncing));
      assert w.events + [Update(id, Failed)] + [State(Syncing)] == w.events + [Update(id, Failed), State(Syncing)];
    }
  }

  /** A step at a network leaves the other network's wallet alone and keeps this one's queues in order. */
  lemma StepKeepsQueues(s: System, n: Network, a: Action, m: Network)
    requires Enabled(s, n, a) && QueuesOk(s.At(n)) && QueuesOk(s.At(m))
    ensures QueuesOk(Step(s, n, a).At(m))
  {
    var w := s.At(n);
    match a
    case Post(id, _) =>
      if Refusal(w).None? {
        PostKeepsQueues(w, id);
      }
    case Deliver => DeliverKeepsQueues(w);
    case Receive => ReceiveKeepsQueues(w);
    case Announce(_, _) => WorkerKeepsQueues(w, a);
    case Stage => WorkerKeepsQueues(w, a);
    case Finish(_) => WorkerKeepsQueues(w, a);
    case Recover(_) => WorkerKeepsQueues(w, a);
    case _ =>
  }

  lemma StepKeepsClaims(s: System, n: Network, a: Action, m: Network)
    requires Enabled(s, n, a) && Valid(s)
    ensures ClaimsOk(Step(s, n, a).claims, m, Step(s, n, a).At(m).active)
  {
    var w := s.At(n);
    assert QueuesOk(w) && ClaimsOk(s.claims, n, w.active) && ClaimsOk(s.claims, m, s.At(m).active);
  }

  lemma StepKeepsIds(s: System, n: Network, a: Action)
    requires Enabled(s, n, a) && IdsOk(s) && QueuesOk(s.preview) && QueuesOk(s.preprod)
    ensures IdsOk(Step(s, n, a))
  {
    match a
    case Receive => ReceiveKeepsIds(s, n);
    case Post(id, now) => PostKeepsIds(s, n, id, now);
    case _ => OthersKeepIds(s, n, a);
  }

  lemma PostKeepsIds(s: System, n: Network, id: Id, now: nat)
    requires Enabled(s, n, Post(id, now)) && IdsOk(s) && QueuesOk(s.preview) && QueuesOk(s.preprod)
    ensures IdsOk(Step(s, n, Post(id, now)))
  {
  }

  lemma OthersKeepIds(s: System, n: Network, a: Action)
    requires Enabled(s, n, a) && IdsOk(s) && QueuesOk(s.preview) && QueuesOk(s.preprod) && !a.Receive? && !a.Post?
    ensures IdsOk(Step(s, n, a))
  {
  }

  lemma ReceiveKeepsIds(s: System, n: Network)
    requires Enabled(s, n, Receive) && IdsOk(s) && QueuesOk(s.preview) && QueuesOk(s.preprod)
    ensures IdsOk(Step(s, n, Receive))
  {
    var w, id := s.At(n), s.At(n).commands[0];
    assert w.active == Some(id) && w.commands[1..] == [] && id in w.commands;
    assert id !in s.started;
  }

  lemma StepKeeps(s: System, n: Network, a: Action)
    requires Enabled(s, n, a) && Valid(s)
    ensures Valid(Step(s, n, a))
  {
    assert QueuesOk(s.At(Preview)) && QueuesOk(s.At(Preprod));
    StepKeepsIds(s, n, a);
    forall m: Network ensures QueuesOk(Step(s, n, a).At(m)) && ClaimsOk(Step(s, n, a).claims, m, Step(s, n, a).At(m).active) {
      assert QueuesOk(s.At(n)) && QueuesOk(s.At(m));
      StepKeepsQueues(s, n, a, m);
      StepKeepsClaims(s, n, a, m);
    }
  }

  // ---------- what no step changes ----------

  /** A claim is listed when a ready wallet without an active claim admits it, until a clean-up finds it too old. */
  lemma StepListsClaims(s: System, n: Network, a: Action, id: Id)
    requires Enabled(s, n, a)
    ensures id !in s.claims ==>
      (id in Step(s, n, a).claims <==> a.Post? && a.id == id && s.At(n).state == Ready && s.At(n).active.None?)
    ensures id in s.claims && id in s.used ==>
      (id !in Step(s, n, a).claims <==> a.CleanUp? && s.claims[id].createdAt < a.cutoff)
    ensures id in s.claims && id in s.used && id in Step(s, n, a).claims ==>
      Step(s, n, a).claims[id].network == s.claims[id].network && Step(s, n, a).claims[id].createdAt == s.claims[id].createdAt
  {
    assert a.Post? ==> a.id !in s.used;
  }

  /** An ended claim keeps its outcome as long as it is listed. */
  lemma StepKeepsOutcome(s: System, n: Network, a: Action, id: Id)
    requires Enabled(s, n, a) && Valid(s) && id in s.claims && s.claims[id].Terminal()
    ensures id in Step(s, n, a).claims ==> Step(s, n, a).claims[id] == s.claims[id]
  {
    var w := s.At(n);
    assert QueuesOk(w) && ClaimsOk(s.claims, n, w.active);
  }

  // ---------- claims tell what became of their transfers ----------

  predicate Succeeded(s: System, id: Id) {
    id in s.outcomes && s.outcomes[id]
  }

  predicate Rejected(s: System, id: Id) {
    id in s.outcomes && !s.outcomes[id]
  }

  /**
     A complete claim's transfer succeeded. A failed one's was rejected, or never started because the worker refused it, or
     its worker exited.
   */
  predicate ClaimsTrue(s: System) {
    && (forall id :: id in s.claims && s.claims[id].state.Complete? ==> Succeeded(s, id))
    && (forall id :: id in s.claims && s.claims[id].state.Failed? ==>
          Rejected(s, id) || id !in s.started || id in s.lost)
  }

  /** So it is with the events under way; and a transfer that goes on has no outcome yet. */
  predicate EventsTrue(s: System, w: Wallet) {
    && (forall i :: 0 <= i < |w.events| ==> EventTrue(s, w.events[i]))
    && (w.worker.Alive? && w.worker.job.Transfer? ==> w.worker.job.id in s.started && w.worker.job.id !in s.outcomes)
  }

  predicate EventTrue(s: System, e: Event) {
    && (e.Update? && e.claim.Complete? ==> Succeeded(s, e.id))
    && (e.Update? && e.claim.Failed? ==> Rejected(s, e.id) || e.id !in s.started)
  }

  function Outcome(success: bool): ClaimState {
    if success then Complete else Failed
  }

  /** The outcome of an active claim's transfer is under way. */
  predicate OutcomePending(s: System, w: Wallet) {
    w.active.Some? && w.active.value in s.outcomes ==>
      Update(w.active.value, Outcome(s.outcomes[w.active.value])) in w.events
  }

  predicate OutcomesOk(s: System) {
    && (forall id :: id in s.outcomes ==> id in s.started)
    && ClaimsTrue(s) && EventsTrue(s, s.preview) && EventsTrue(s, s.preprod)
    && OutcomePending(s, s.preview) && OutcomePending(s, s.preprod)
  }

  lemma InAppended(events: seq<Event>, more: seq<Event>, e: Event)
    ensures e in events + more <==> e in events || e in more
  {
  }

  lemma InRest(events: seq<Event>, e: Event)
    requires events != []
    ensures e in events <==> e == events[0] || e in events[1..]
  {
    assert events == [events[0]] + events[1..];
  }

  /** The step's own network: an event is only appended, or delivered, or lost with an exit. */
  lemma OwnPending(s: System, n: Network, a: Action)
    requires Enabled(s, n, a) && Valid(s) && OutcomesOk(s) && !a.CleanUp?
    ensures OutcomePending(Step(s, n, a), Step(s, n, a).At(n))
  {
    var w := s.At(n);
    assert OutcomePending(s, w) && QueuesOk(w);
    if w.active.Some? && w.active.value in Step(s, n, a).outcomes {
      var e := Update(w.active.value, Outcome(Step(s, n, a).outcomes[w.active.value]));
      match a
      case Deliver => InRest(w.events, e);
      case Announce(state, _) => InAppended(w.events, [State(state)], e);
      case Finish(success) =>
        InAppended(w.events, [Update(w.worker.job.id, Complete)], e);
        InAppended(w.events, [Update(w.worker.job.id, Failed), State(Syncing)], e);
      case Recover(success) => InAppended(w.events, [State(if success then Ready else Syncing)], e);
      case _ =>
    }
  }

  lemma StepKeepsPending(s: System, n: Network, a: Action, m: Network)
    requires Enabled(s, n, a) && Valid(s) && OutcomesOk(s)
    ensures OutcomePending(Step(s, n, a), Step(s, n, a).At(m))
  {
    if m == n && !a.CleanUp? {
      OwnPending(s, n, a);
    } else {
      StepRecords(s, n, a);
      assert OutcomePending(s, s.At(m)) && Step(s, n, a).At(m) == s.At(m);
    }
  }

  /** What a step records: nothing is taken back, and what is new belongs to the wallet's active claim. */
  lemma StepRecords(s: System, n: Network, a: Action)
    requires Enabled(s, n, a) && Valid(s) && OutcomesOk(s)
    ensures var t := Step(s, n, a);
      && (forall id :: id in s.outcomes ==> id in t.outcomes && t.outcomes[id] == s.outcomes[id])
      && (forall id :: id in t.outcomes && id !in s.outcomes ==> s.At(n).active == Some(id) && id in s.started)
      && (forall id :: id in s.started ==> id in t.started)
      && (forall id :: id in t.started && id !in s.started ==> s.At(n).active == Some(id) && s.At(n).commands == [id])
      && s.lost <= t.lost
  {
    assert QueuesOk(s.At(n)) && EventsTrue(s, s.At(n));
  }

  lemma StepKeepsClaimsTrue(s: System, n: Network, a: Action)
    requires Enabled(s, n, a) && Valid(s) && OutcomesOk(s)
    ensures ClaimsTrue(Step(s, n, a))
  {
    var t, w := Step(s, n, a), s.At(n);
    StepRecords(s, n, a);
    assert QueuesOk(w) && ClaimsOk(s.claims, n, w.active) && EventsTrue(s, w);
    assert a.Deliver? ==> EventTrue(s, w.events[0]);
  }

  /** Events under way stay true: nothing is started or finished behind the event that ends a claim. */
  lemma EventStaysTrue(s: System, n: Network, a: Action, m: Network, i: nat)
    requires Enabled(s, n, a) && Valid(s) && OutcomesOk(s) && i < |s.At(m).events|
    ensures EventTrue(Step(s, n, a), s.At(m).events[i])
  {
    var t, e := Step(s, n, a), s.At(m).events[i];
    StepRecords(s, n, a);
    assert QueuesOk(s.At(n)) && QueuesOk(s.At(m)) && EventsTrue(s, s.At(m)) && EventTrue(s, e);
    assert m != n && e.Update? ==> s.At(n).active != Some(e.id);
  }

  lemma StepKeepsEventsTrue(s: System, n: Network, a: Action, m: Network)
    requires Enabled(s, n, a) && Valid(s) && OutcomesOk(s)
    ensures EventsTrue(Step(s, n, a), Step(s, n, a).At(m))
  {
    var t := Step(s, n, a);
    StepRecords(s, n, a);
    assert QueuesOk(s.At(n)) && QueuesOk(s.At(m)) && EventsTrue(s, s.At(n)) && EventsTrue(s, s.At(m));
    forall i: nat | i < |s.At(m).events| ensures EventTrue(t, s.At(m).events[i]) {
      EventStaysTrue(s, n, a, m, i);
    }
    if m == n {
      NewEventsTrue(s, n, a);
    }
  }

  /** What a step adds to its own network's events is true as well. */
  lemma NewEventsTrue(s: System, n: Network, a: Action)
    requires Enabled(s, n, a) && Valid(s) && OutcomesOk(s)
    ensures forall i :: 0 <= i < |Step(s, n, a).At(n).events| ==>
      Step(s, n, a).At(n).events[i] in s.At(n).events || EventTrue(Step(s, n, a), Step(s, n, a).At(n).events[i])
  {
    var t, w := Step(s, n, a), s.At(n);
    assert QueuesOk(w) && EventsTrue(s, w);
    assert a.Receive? ==> w.commands[0] in w.commands && w.active == Some(w.commands[0]);
  }

  lemma StepKeepsOutcomes(s: System, n: Network, a: Action)
    requires Enabled(s, n, a) && Valid(s) && OutcomesOk(s)
    ensures OutcomesOk(Step(s, n, a))
  {
    StepRecords(s, n, a);
    StepKeepsClaimsTrue(s, n, a);
    StepKeepsEventsTrue(s, n, a, Preview);
    StepKeepsEventsTrue(s, n, a, Preprod);
    StepKeepsPending(s, n, a, Preview);
    StepKeepsPending(s, n, a, Preprod);
  }

  // ---------- runs ----------

  predicate Legal(s: System, run: seq<(Network, Action)>)
    decreases |run|
  {
    run == [] || (Enabled(s, run[0].0, run[0].1) && Legal(Step(s, run[0].0, run[0].1), run[1..]))
  }

  function After(s: System, run: seq<(Network, Action)>): System
    requires Legal(s, run)
    decreases |run|
  {
    if run == [] then s else After(Step(s, run[0].0, run[0].1), run[1..])
  }

  const STOPPED: Wallet := Wallet(Starting, None, [], [], Gone)

  const BOOT: System := System(map[], STOPPED, STOPPED, {}, [], map[], {})

  lemma BootValid()
    ensures Valid(BOOT) && OutcomesOk(BOOT)
  {
    forall n: Network ensures QueuesOk(BOOT.At(n)) && ClaimsOk(BOOT.claims, n, BOOT.At(n).active) {
    }
  }

  /** Over any run the invariant holds, and a claim that has ended never changes its outcome again. */
  lemma {:induction false} RunKeeps(s: System, run: seq<(Network, Action)>)
    requires Valid(s) && OutcomesOk(s) && Legal(s, run)
    ensures Valid(After(s, run)) && OutcomesOk(After(s, run))
    decreases |run|
  {
    if run != [] {
      var (n, a) := run[0];
      StepKeeps(s, n, a);
      StepKeepsOutcomes(s, n, a);
      RunKeeps(Step(s, n, a), run[1..]);
    }
  }

  lemma {:induction false} RunKeepsOutcome(s: System, run: seq<(Network, Action)>, id: Id)
    requires Valid(s) && Legal(s, run) && id in s.claims && s.claims[id].Terminal()
    ensures id in After(s, run).claims ==> After(s, run).claims[id] == s.claims[id]
    decreases |run|
  {
    if run != [] {
      var (n, a) := run[0];
      StepKeeps(s, n, a);
      StepKeepsOutcome(s, n, a, id);
      if id in Step(s, n, a).claims {
        RunKeepsOutcome(Step(s, n, a), run[1..], id);
      } else {
        CleanedUpStaysAway(Step(s, n, a), run[1..], id);
      }
    }
  }

  lemma {:induction false} CleanedUpStaysAway(s: System, run: seq<(Network, Action)>, id: Id)
    requires Legal(s, run) && id !in s.claims && id in s.used
    ensures id !in After(s, run).claims
    decreases |run|
  {
    if run != [] {
      CleanedUpStaysAway(Step(s, run[0].0, run[0].1), run[1..], id);
    }
  }

  /**
     From boot, whatever happens: a listed claim that has not ended is its network's active claim, no claim's transfer is
     started twice, and a worker transfers only the active claim. A complete claim's transfer was started and succeeded; a
     failed one's was rejected, or refused by the worker before it started, or its worker exited.
   */
  lemma ClaimsProtocol(run: seq<(Network, Action)>, id: Id)
    requires Legal(BOOT, run)
    ensures var s := After(BOOT, run);
      && (id in s.claims && !s.claims[id].Terminal() ==> s.At(s.claims[id].network).active == Some(id))
      && (forall i, j :: 0 <= i < j < |s.started| ==> s.started[i] != s.started[j])
      && (forall n: Network :: TransfersActive(s.At(n)))
      && (id in s.claims && s.claims[id].state.Complete? ==> id in s.started && id in s.outcomes && s.outcomes[id] == true)
      && (id in s.claims && s.claims[id].state.Failed? ==>
            (id in s.outcomes && s.outcomes[id] == false) || id !in s.started || id in s.lost)
  {
    BootValid();
    RunKeeps(BOOT, run);
    var s := After(BOOT, run);
    forall n: Network ensures TransfersActive(s.At(n)) {
      assert QueuesOk(s.At(n));
    }
    if id in s.claims {
      assert ClaimsOk(s.claims, s.claims[id].network, s.At(s.claims[id].network).active);
    }
  }

  /**
     A finished transfer shows: unless its worker's exit failed the claim first, a listed claim has ended as its transfer
     did, or it is still active and the event that says so is under way.
   */
  lemma OutcomeShows(run: seq<(Network, Action)>, id: Id)
    requires Legal(BOOT, run) && id in After(BOOT, run).claims && id in After(BOOT, run).outcomes
    requires id !in After(BOOT, run).lost
    ensures var s := After(BOOT, run); var c := s.claims[id]; var outcome := Outcome(s.outcomes[id]);
      || c.state == outcome
      || (s.At(c.network).active == Some(id) && Update(id, outcome) in s.At(c.network).events)
  {
    BootValid();
    RunKeeps(BOOT, run);
    OutcomeUnderWay(After(BOOT, run), id);
  }

  lemma OutcomeUnderWay(s: System, id: Id)
    requires Valid(s) && OutcomesOk(s) && id in s.claims && id in s.outcomes && id !in s.lost
    ensures var c := s.claims[id]; var outcome := Outcome(s.outcomes[id]);
      || c.state == outcome
      || (s.At(c.network).active == Some(id) && Update(id, outcome) in s.At(c.network).events)
  {
    var c := s.claims[id];
    var w := s.At(c.network);
    assert ClaimsOk(s.claims, c.network, w.active) && OutcomePending(s, w);
  }

  predicate TransfersActive(w: Wallet) {
    w.worker.Alive? && w.worker.job.Transfer? ==> w.active == Some(w.worker.job.id)
  }

  /** An active claim is never stuck: its command, its transfer, its last event or its worker's exit is still to come. */
  lemma ActiveIsPending(s: System, n: Network)
    requires Valid(s) && s.At(n).active.Some?
    ensures Enabled(s, n, Receive) || Enabled(s, n, Finish(true)) || (Ended(s.At(n).events) && Enabled(s, n, Deliver))
      || Enabled(s, n, Exit)
  {
    assert QueuesOk(s.At(n));
  }

  // ---------- the objects ----------

  /** The claims listed by the HTTP process. */
  class Registry {
    var claims: map<Id, Claim>

    constructor ()
      ensures claims == map[]
    {
      claims := map[];
    }

    method OnClaim(id: Id, state: ClaimState)
      modifies this
      ensures claims == SetState(old(claims), id, state)
    {
      if id in claims {
        claims := claims[id := claims[id].(state := state)];
      }
    }
  }

  /** `WalletProxy`: what the HTTP process knows of a network's wallet. */
  class WalletProxy {
    const network: Network
    const registry: Registry
    var state: Lifecycle
    var activeClaim: Option<Id>
    var alive: bool
    var posted: seq<Id>

    constructor (network: Network, registry: Registry)
      ensures this.network == network && this.registry == registry && View([], Gone) == STOPPED && !alive
    {
      this.network, this.registry, state, activeClaim, alive, posted := network, registry, Starting, None, false, [];
    }

    ghost function View(events: seq<Event>, worker: Worker): Wallet
      reads this
    {
      Wallet(state, activeClaim, posted, events, worker)
    }

    method OnMessage(e: Event, ghost rest: seq<Event>, ghost worker: Worker)
      modifies this, registry
      ensures View(rest, worker) == Delivered(old(View([e] + rest, worker))) && alive == old(alive)
      ensures registry.claims == if e.Update? then SetState(old(registry.claims), e.id, e.claim) else old(registry.claims)
    {
      match e {
        case State(s) => state := s;
        case Update(id, s) =>
          registry.OnClaim(id, s);
          if s.Complete? || s.Failed? {
            activeClaim := None;
          }
      }
      assert ([e] + rest)[1..] == rest;
    }

    method OnExit(ghost events: seq<Event>)
      requires posted == []
      modifies this, registry
      ensures View([], Gone) == Exited(old(View(events, Crashed))) && !alive
      ensures registry.claims ==
        if old(activeClaim).Some? then SetState(old(registry.claims), old(activeClaim).value, Failed) else old(registry.claims)
    {
      state, alive := Failure, false;
      if activeClaim.Some? {
        registry.OnClaim(activeClaim.value, Failed);
        activeClaim := None;
      }
    }

    /** `claim`: admits a claim, or says with which status it is refused. */
    method Admit(id: Id, ghost events: seq<Event>, ghost worker: Worker) returns (refused: Option<nat>)
      requires alive <==> worker.Alive?
      modifies this
      ensures refused == Refusal(old(View(events, worker))) && alive == old(alive)
      ensures refused == if old(state) != Ready then Some(503) else if old(activeClaim).Some? then Some(429) else None
      ensures View(events, worker) ==
        if refused.Some? then old(View(events, worker)) else Posted(old(View(events, worker)), id)
    {
      if state != Ready {
        return Some(503);
      }
      if activeClaim.Some? {
        return Some(429);
      }
      activeClaim := Some(id);
      if alive {
        posted := posted + [id];
      }
      refused := None;
    }

    /** The POST handler: lists the claim, and takes it off the list again when the proxy refuses it. */
    method Post(id: Id, now: nat, ghost events: seq<Event>, ghost worker: Worker) returns (status: nat)
      requires (alive <==> worker.Alive?) && id !in registry.claims
      modifies this, registry
      ensures var w := old(View(events, worker));
        if Refusal(w).Some? then
          status == Refusal(w).value && View(events, worker) == w && registry.claims == old(registry.claims)
        else
          status == 202 && View(events, worker) == Posted(w, id)
          && registry.claims == old(registry.claims)[id := Claim(network, Queued, now)]
    {
      registry.claims := registry.claims[id := Claim(network, Queued, now)];
      var refused := Admit(id, events, worker);
      if refused.Some? {
        registry.claims := registry.claims - {id};
        return refused.value;
      }
      status := 202;
    }
  }

  /** `FaucetWallet` in its worker: the wallet that transfers, and the events it has posted. */
  class WorkerWallet {
    var state: Lifecycle
    var session: bool
    var job: Job
    var outbox: seq<Event>

    constructor ()
      ensures WorkerView() == Alive(Starting, false, Idle) && outbox == [State(Starting)]
    {
      state, session, job, outbox := Starting, false, Idle, [Event.State(Starting)];
    }

    ghost function WorkerView(): Worker
      reads this
    {
      Alive(state, session, job)
    }

    method SetState(s: Lifecycle)
      modifies this`state, this`outbox
      ensures state == s && outbox == old(outbox) + [State(s)]
    {
      state := s;
      outbox := outbox + [Event.State(s)];
    }

    method PostClaim(id: Id, s: ClaimState)
      modifies this`outbox
      ensures outbox == old(outbox) + [Update(id, s)]
    {
      outbox := outbox + [Update(id, s)];
    }

    /** The claim command: the transfer starts, or the claim fails at once. */
    method OnCommand(id: Id, ghost w: Wallet)
      requires w.worker == WorkerView() && w.events == outbox && w.commands != [] && w.commands[0] == id
      modifies this
      ensures w.(commands := w.commands[1..], worker := WorkerView(), events := outbox) == Received(w)
      ensures outbox == old(outbox) +
        if old(state) == Ready && old(session) && old(job) == Idle then [Update(id, Queued), Update(id, Sending)]
        else [Update(id, Failed)]
    {
      if state != Ready || !session || !job.Idle? {
        PostClaim(id, Failed);
        return;
      }
      job := Transfer(id);
      PostClaim(id, Queued);
      PostClaim(id, Sending);
      assert w.events + [Update(id, Queued)] + [Update(id, Sending)] == w.events + [Update(id, Queued), Update(id, Sending)];
    }

    /** The end of a transfer; after a rejected one the wallet resynchronises before it takes another claim. */
    method OnTransferred(success: bool, ghost w: Wallet)
      requires w.worker == WorkerView() && w.events == outbox && job.Transfer?
      modifies this
      ensures w.(worker := WorkerView(), events := outbox) == Finished(w, success)
      ensures var id := old(job).id;
        outbox == old(outbox) + if success then [Update(id, Complete)] else [Update(id, Failed), State(Syncing)]
    {
      var id := job.id;
      if success {
        PostClaim(id, Complete);
        job := Idle;
      } else {
        PostClaim(id, Failed);
        SetState(Syncing);
        job := Recovering(id);
        assert w.events + [Update(id, Failed)] + [State(Syncing)] == w.events + [Update(id, Failed), State(Syncing)];
      }
    }

    method OnRecovered(success: bool, ghost w: Wallet)
      requires w.worker == WorkerView() && w.events == outbox && job.Recovering?
      modifies this
      ensures w.(worker := WorkerView(), events := outbox) == Recovered(w, success)
    {
      SetState(if success then Ready else Syncing);
      job := Idle;
    }
  }
}
