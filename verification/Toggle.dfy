/** The on/off race: control handlers check and store the flag without a lock and spawn hook
    threads, which apply the routes and store the flag again under the routes lock. */
module Toggle {
  import opened Prelude

  /** A handler that saw a difference: about to store the flag, or about to spawn its hook. */
  datatype Handler = Checked(on: bool) | Stored(on: bool)

  /** How a hook's commands went. Taking things down always works; bringing them up may stop at
      the routes or at the kill switch. */
  datatype Outcome = AllWorked | RoutesFailed | KillSwitchFailed

  /** A hook thread: waiting for the lock, or holding it with its commands already run. */
  datatype Hook = Waiting(on: bool) | Applied(on: bool, outcome: Outcome)

  /** `tunnel`: both full-tunnel routes are up. `last`, `lastOutcome`: what the latest finished hook
      was asked and how it went. */
  datatype Client = Client(
    enabled: bool,
    tunnel: bool,
    killSwitch: bool,
    handlers: map<nat, Handler>,
    hooks: map<nat, Hook>,
    last: bool,
    lastOutcome: Outcome)

  datatype Event =
    | Request(id: nat, on: bool)
    | Store(id: nat)
    | Spawn(id: nat, hook: nat)
    | Apply(hook: nat, outcome: Outcome)
    | Finish(hook: nat)

  predicate LockFree(c: Client) {
    forall h | h in c.hooks :: c.hooks[h].Waiting?
  }

  predicate Possible(c: Client, e: Event) {
    match e
    case Request(id, _) => id !in c.handlers
    case Store(id) => id in c.handlers && c.handlers[id].Checked?
    case Spawn(id, hook) => id in c.handlers && c.handlers[id].Stored? && hook !in c.hooks
    case Apply(hook, outcome) =>
      && hook in c.hooks && c.hooks[hook].Waiting? && LockFree(c)
      && (!c.hooks[hook].on ==> outcome.AllWorked?)
    case Finish(hook) => hook in c.hooks && c.hooks[hook].Applied?
  }

  /** The tunnel and kill switch a hook leaves. A failed route leaves both as they were. */
  function Effect(want: bool, tunnel: bool, killSwitch: bool, on: bool, outcome: Outcome): (bool, bool) {
    if !on then (false, false)
    else match outcome
      case AllWorked => (true, killSwitch || want)
      case RoutesFailed => (tunnel, killSwitch)
      case KillSwitchFailed => (true, killSwitch)
  }

  function Step(want: bool, c: Client, e: Event): Client
    requires Possible(c, e)
  {
    match e
    case Request(id, on) => if c.enabled == on then c else c.(handlers := c.handlers[id := Checked(on)])
    case Store(id) => c.(enabled := c.handlers[id].on, handlers := c.handlers[id := Stored(c.handlers[id].on)])
    case Spawn(id, hook) => c.(handlers := c.handlers - {id}, hooks := c.hooks[hook := Waiting(c.handlers[id].on)])
    case Apply(hook, outcome) =>
      var on := c.hooks[hook].on;
      var (tunnel, killSwitch) := Effect(want, c.tunnel, c.killSwitch, on, outcome);
      c.(tunnel := tunnel, killSwitch := killSwitch, hooks := c.hooks[hook := Applied(on, outcome)])
    case Finish(hook) =>
      var on := c.hooks[hook].on;
      c.(enabled := on, hooks := c.hooks - {hook}, last := on, lastOutcome := c.hooks[hook].outcome)
  }

  /** A client just installed, with or without its kill switch. */
  function Start(want: bool, first: Outcome): Client {
    Client(true, true, want && first.AllWorked?, map[], map[], true, first)
  }

  ghost predicate IsRun(want: bool, es: seq<Event>, states: seq<Client>) {
    && |states| == |es| + 1
    && (states[0] == Start(want, AllWorked) || states[0] == Start(want, KillSwitchFailed))
    && forall i :: 0 <= i < |es| ==> Possible(states[i], es[i]) && states[i + 1] == Step(want, states[i], es[i])
  }

  /** No hook is pending: none spawned and unfinished, none about to be spawned. */
  ghost predicate Quiescent(c: Client) {
    c.hooks == map[] && forall h :: h in c.handlers ==> c.handlers[h].Checked?
  }

  /** With nothing pending the flag is what the last hook stored. */
  ghost predicate FlagSettled(c: Client) {
    Quiescent(c) ==> c.enabled == c.last
  }

  /** At most one hook holds the lock. */
  ghost predicate OneHolder(c: Client) {
    forall g, h :: g in c.hooks && h in c.hooks && c.hooks[g].Applied? && c.hooks[h].Applied? ==> g == h
  }

  /** Routes and kill switch look as the hook holding the lock left them, or else the last one. */
  ghost predicate Shown(want: bool, c: Client) {
    && (forall h :: h in c.hooks && c.hooks[h].Applied? ==> Shows(want, c, c.hooks[h].on, c.hooks[h].outcome))
    && (LockFree(c) ==> Shows(want, c, c.last, c.lastOutcome))
    && (c.killSwitch ==> c.tunnel && want)
  }

  ghost predicate Inv(want: bool, c: Client) {
    FlagSettled(c) && OneHolder(c) && Shown(want, c)
  }

  /** What routes and kill switch look like right after a hook. */
  predicate Shows(want: bool, c: Client, on: bool, outcome: Outcome) {
    && (!on || !outcome.RoutesFailed? ==> c.tunnel == on)
    && (!on || outcome.AllWorked? ==> c.killSwitch == (on && want))
  }

  lemma StepKeepsFlag(want: bool, c: Client, e: Event)
    requires FlagSettled(c) && Possible(c, e)
    ensures FlagSettled(Step(want, c, e))
  {
    var c' := Step(want, c, e);
    match e
    case Request(id, on) =>
      if Quiescent(c') && c.enabled != on {
        assert forall h :: h in c.handlers ==> h in c'.handlers && c'.handlers[h] == c.handlers[h];
      }
    case Store(id) => assert c'.handlers[id].Stored?;
    case Spawn(id, hook) => assert hook in c'.hooks;
    case Apply(hook, _) => assert hook in c'.hooks;
    case Finish(hook) =>
  }

  lemma StepKeepsHolder(want: bool, c: Client, e: Event)
    requires OneHolder(c) && Possible(c, e)
    ensures OneHolder(Step(want, c, e))
  {
  }

  lemma StepKeepsShown(want: bool, c: Client, e: Event)
    requires OneHolder(c) && Shown(want, c) && Possible(c, e)
    ensures Shown(want, Step(want, c, e))
  {
    var c' := Step(want, c, e);
    match e
    case Spawn(id, hook) =>
      assert forall h :: h in c.hooks ==> h in c'.hooks && c'.hooks[h] == c.hooks[h];
    case Apply(hook, _) => assert c'.hooks[hook].Applied?;
    case Finish(hook) => assert LockFree(c');
    case _ =>
  }

  lemma StepKeepsInv(want: bool, c: Client, e: Event)
    requires Inv(want, c) && Possible(c, e)
    ensures Inv(want, Step(want, c, e))
  {
    StepKeepsFlag(want, c, e);
    StepKeepsHolder(want, c, e);
    StepKeepsShown(want, c, e);
  }

  lemma {:induction false} RunKeepsInv(want: bool, es: seq<Event>, states: seq<Client>, i: nat)
    requires IsRun(want, es, states) && i <= |es|
    ensures Inv(want, states[i])
  {
    if i == 0 {
    } else {
      RunKeepsInv(want, es, states, i - 1);
      StepKeepsInv(want, states[i - 1], es[i - 1]);
    }
  }

  /** In every interleaving, whenever no hook is pending the flag is what the last hook to finish
      was asked; unless that hook failed to install a route it also says whether the full-tunnel
      routes are up, and if all its commands worked the kill switch is up exactly when enabled and
      wanted. Earlier failures do not matter. */
  lemma ToggleAgreement(want: bool, es: seq<Event>, states: seq<Client>, i: nat)
    requires IsRun(want, es, states) && i <= |es| && Quiescent(states[i])
    ensures states[i].enabled == states[i].last
    ensures !states[i].last || !states[i].lastOutcome.RoutesFailed? ==> states[i].tunnel == states[i].enabled
    ensures !states[i].last || states[i].lastOutcome.AllWorked? ==> states[i].killSwitch == (states[i].enabled && want)
  {
    RunKeepsInv(want, es, states, i);
  }

  /** At every point of every run, even mid-race, the kill switch is up only with the tunnel. */
  lemma KillSwitchNeedsTunnel(want: bool, es: seq<Event>, states: seq<Client>, i: nat)
    requires IsRun(want, es, states) && i <= |es|
    ensures states[i].killSwitch ==> states[i].tunnel && want
  {
    RunKeepsInv(want, es, states, i);
  }

  // ---- when the last request is sure to win ----

  /** Nothing that still has its commands to run asks for the opposite. */
  predicate Unopposed(c: Client, on: bool) {
    && (forall h | h in c.handlers :: c.handlers[h].on == on)
    && (forall h | h in c.hooks :: c.hooks[h].Waiting? ==> c.hooks[h].on == on)
  }

  /** Something in flight asks for `on`, whatever its stage. */
  predicate Allied(c: Client, on: bool) {
    c.handlers != map[] || exists h | h in c.hooks :: c.hooks[h].on == on
  }

  /** What to check before a request for `on`: nothing ahead of it has opposite commands still to
      run, and if a hook is only waiting to store the opposite flag, the request takes effect or
      something else in flight stores `on` after it. */
  predicate Certain(c: Client, on: bool) {
    Unopposed(c, on) && (c.enabled != on || Allied(c, on) || c.hooks == map[])
  }

  predicate Idle(c: Client) {
    c.handlers == map[] && c.hooks == map[]
  }

  /** Kept until everything is done: the flag is `on`, or something that will make it so remains. */
  ghost predicate Bound(c: Client, on: bool) {
    Unopposed(c, on) && (Allied(c, on) || (c.hooks == map[] && c.enabled == on))
  }

  lemma RequestBinds(want: bool, c: Client, id: nat, on: bool)
    requires Possible(c, Request(id, on)) && Certain(c, on)
    ensures Bound(Step(want, c, Request(id, on)), on)
  {
    if c.enabled != on {
      assert id in Step(want, c, Request(id, on)).handlers;
    }
  }

  lemma FinishKeepsBound(want: bool, c: Client, hook: nat, on: bool)
    requires Inv(want, c) && Possible(c, Finish(hook)) && Bound(c, on)
    ensures Bound(Step(want, c, Finish(hook)), on)
  {
    var c' := Step(want, c, Finish(hook));
    forall h | h in c.hooks && h != hook
      ensures h in c'.hooks && c'.hooks[h].on == on
    {
      assert c.hooks[h].Waiting?;
    }
    if !Allied(c', on) {
      assert c'.hooks == map[];
      var h :| h in c.hooks && c.hooks[h].on == on;
      assert h !in c'.hooks;
    }
  }

  lemma StepKeepsBound(want: bool, c: Client, e: Event, on: bool)
    requires Inv(want, c) && Possible(c, e) && Bound(c, on)
    requires e.Request? ==> e.on == on
    ensures Bound(Step(want, c, e), on)
  {
    var c' := Step(want, c, e);
    match e
    case Request(id, _) => assert c.enabled != on ==> id in c'.handlers;
    case Store(id) => assert id in c'.handlers;
    case Spawn(id, hook) => assert hook in c'.hooks && c'.hooks[hook].on == on;
    case Apply(hook, _) =>
      assert c'.hooks.Keys == c.hooks.Keys;
      assert forall h :: h in c.hooks ==> c'.hooks[h].on == c.hooks[h].on;
    case Finish(hook) => FinishKeepsBound(want, c, hook, on);
  }

  /** No request for the opposite of `on` in es[from..to]. */
  predicate NoneAgainst(es: seq<Event>, from: nat, to: nat, on: bool)
    requires to <= |es|
  {
    forall j | from <= j < to :: es[j].Request? ==> es[j].on == on
  }

  lemma {:induction false} BoundStays(want: bool, es: seq<Event>, states: seq<Client>, from: nat, to: nat, on: bool)
    requires IsRun(want, es, states) && from <= to <= |es|
    requires Bound(states[from], on) && NoneAgainst(es, from, to, on)
    ensures Bound(states[to], on)
  {
    if from == to {
    } else {
      BoundStays(want, es, states, from, to - 1, on);
      RunKeepsInv(want, es, states, to - 1);
      StepKeepsBound(want, states[to - 1], es[to - 1], on);
    }
  }

  /** Every command of the run worked, those of the installation included. */
  ghost predicate CommandsWork(want: bool, es: seq<Event>, states: seq<Client>) {
    && IsRun(want, es, states) && states[0] == Start(want, AllWorked)
    && forall i :: 0 <= i < |es| && es[i].Apply? ==> es[i].outcome.AllWorked?
  }

  predicate OutcomesFine(c: Client) {
    c.lastOutcome.AllWorked? && forall h | h in c.hooks :: c.hooks[h].Applied? ==> c.hooks[h].outcome.AllWorked?
  }

  lemma {:induction false} OutcomesStayFine(want: bool, es: seq<Event>, states: seq<Client>, i: nat)
    requires CommandsWork(want, es, states) && i <= |es|
    ensures OutcomesFine(states[i])
  {
    if i == 0 {
    } else {
      OutcomesStayFine(want, es, states, i - 1);
    }
  }

  /** After a request made when `Certain` held, with no opposite request since, the client ends as
      requested however handlers and hooks interleave: the flag always, and the routes and the
      kill switch too when commands work. */
  lemma LastRequestWins(want: bool, es: seq<Event>, states: seq<Client>, r: nat, id: nat, on: bool, n: nat)
    requires IsRun(want, es, states) && r < n <= |es| && es[r] == Request(id, on)
    requires Certain(states[r], on) && NoneAgainst(es, r, n, on) && Idle(states[n])
    ensures states[n].enabled == states[n].last == on
    ensures !on || !states[n].lastOutcome.RoutesFailed? ==> states[n].tunnel == on
    ensures !on || states[n].lastOutcome.AllWorked? ==> states[n].killSwitch == (on && want)
    ensures CommandsWork(want, es, states) ==> states[n].tunnel == on && states[n].killSwitch == (on && want)
  {
    RequestBinds(want, states[r], id, on);
    BoundStays(want, es, states, r + 1, n, on);
    ToggleAgreement(want, es, states, n);
    if CommandsWork(want, es, states) {
      OutcomesStayFine(want, es, states, n);
    }
  }

  // ---- and when it is not ----

  lemma RunExtends(want: bool, es: seq<Event>, states: seq<Client>, e: Event)
    requires IsRun(want, es, states) && Possible(states[|es|], e)
    ensures IsRun(want, es + [e], states + [Step(want, states[|es|], e)])
  {
  }

  /** `more` continues `es` without any further request. */
  predicate Continues(es: seq<Event>, more: seq<Event>) {
    es <= more && forall j | |es| <= j < |more| :: !more[j].Request?
  }

  lemma FreshName(used: set<nat>) returns (n: nat)
    ensures n !in used
  {
    n := Highest(used) + 1;
  }

  lemma OneMore(want: bool, es: seq<Event>, states: seq<Client>, e: Event)
      returns (es': seq<Event>, states': seq<Client>)
    requires IsRun(want, es, states) && Possible(states[|es|], e)
    ensures IsRun(want, es', states') && es' == es + [e] && states'[|es'|] == Step(want, states[|es|], e)
  {
    RunExtends(want, es, states, e);
    es', states' := es + [e], states + [Step(want, states[|es|], e)];
  }

  lemma HandlerStores(want: bool, es: seq<Event>, states: seq<Client>, id: nat)
      returns (es': seq<Event>, states': seq<Client>)
    requires IsRun(want, es, states) && id in states[|es|].handlers
    ensures IsRun(want, es', states') && Continues(es, es')
    ensures var c, c' := states[|es|], states'[|es'|];
            c'.handlers == c.handlers[id := Stored(c.handlers[id].on)] && c'.hooks == c.hooks
  {
    es', states' := es, states;
    if states[|es|].handlers[id].Checked? {
      es', states' := OneMore(want, es, states, Store(id));
    } else {
      assert states[|es|].handlers[id := states[|es|].handlers[id]] == states[|es|].handlers;
    }
  }

  /** A handler stores the flag if it has not yet, and spawns its hook. */
  lemma HandlerSpawns(want: bool, es: seq<Event>, states: seq<Client>, id: nat)
      returns (es': seq<Event>, states': seq<Client>, hook: nat)
    requires IsRun(want, es, states) && id in states[|es|].handlers
    ensures IsRun(want, es', states') && Continues(es, es')
    ensures var c, c' := states[|es|], states'[|es'|];
            && hook !in c.hooks && c'.hooks == c.hooks[hook := Waiting(c.handlers[id].on)]
            && c'.handlers == c.handlers - {id}
  {
    var handlers := states[|es|].handlers;
    es', states' := HandlerStores(want, es, states, id);
    hook := FreshName(states'[|es'|].hooks.Keys);
    es', states' := OneMore(want, es', states', Spawn(id, hook));
    assert handlers[id := Stored(handlers[id].on)] - {id} == handlers - {id};
  }

  /** All handlers spawn their hooks; the waiting hook `kept` still waits. */
  lemma {:induction false} AllSpawn(want: bool, es: seq<Event>, states: seq<Client>, kept: nat)
      returns (es': seq<Event>, states': seq<Client>)
    requires IsRun(want, es, states) && kept in states[|es|].hooks
    ensures IsRun(want, es', states') && Continues(es, es')
    ensures states'[|es'|].handlers == map[]
    ensures kept in states'[|es'|].hooks && states'[|es'|].hooks[kept] == states[|es|].hooks[kept]
    decreases |states[|es|].handlers|
  {
    es', states' := es, states;
    if states[|es|].handlers != map[] {
      var id :| id in states[|es|].handlers;
      var hook;
      es', states', hook := HandlerSpawns(want, es, states, id);
      assert states[|es|].handlers.Keys == states'[|es'|].handlers.Keys + {id};
      es', states' := AllSpawn(want, es', states', kept);
    }
  }

  /** The hook holding the lock, if there is one, finishes. */
  lemma LockReleased(want: bool, es: seq<Event>, states: seq<Client>)
      returns (es': seq<Event>, states': seq<Client>)
    requires IsRun(want, es, states)
    ensures IsRun(want, es', states') && Continues(es, es') && LockFree(states'[|es'|])
    ensures var c, c' := states[|es|], states'[|es'|];
            c'.handlers == c.handlers && forall h :: h in c.hooks && c.hooks[h].Waiting? ==> h in c'.hooks && c'.hooks[h] == c.hooks[h]
  {
    es', states' := es, states;
    if !LockFree(states[|es|]) {
      RunKeepsInv(want, es, states, |es|);
      var hook :| hook in states[|es|].hooks && states[|es|].hooks[hook].Applied?;
      es', states' := OneMore(want, es, states, Finish(hook));
    }
  }

  /** With the lock free, a waiting hook runs all its commands and stores its flag. */
  lemma HookRuns(want: bool, es: seq<Event>, states: seq<Client>, hook: nat)
      returns (es': seq<Event>, states': seq<Client>)
    requires IsRun(want, es, states) && hook in states[|es|].hooks && LockFree(states[|es|])
    ensures IsRun(want, es', states') && Continues(es, es') && es' == es + [Apply(hook, AllWorked), Finish(hook)]
    ensures var c, c' := states[|es|], states'[|es'|];
            && c'.enabled == c'.tunnel == c.hooks[hook].on
            && c'.handlers == c.handlers && c'.hooks == c.hooks - {hook}
  {
    es', states' := OneMore(want, es, states, Apply(hook, AllWorked));
    es', states' := OneMore(want, es', states', Finish(hook));
  }

  /** Every waiting hook runs, `last` after all others. */
  lemma {:induction false} AllRun(want: bool, es: seq<Event>, states: seq<Client>, last: nat)
      returns (es': seq<Event>, states': seq<Client>)
    requires IsRun(want, es, states) && last in states[|es|].hooks && LockFree(states[|es|])
    requires states[|es|].handlers == map[]
    ensures IsRun(want, es', states') && Continues(es, es') && Idle(states'[|es'|])
    ensures states'[|es'|].enabled == states'[|es'|].tunnel == states[|es|].hooks[last].on
    decreases |states[|es|].hooks|
  {
    var hooks := states[|es|].hooks;
    if hooks.Keys == {last} {
      es', states' := HookRuns(want, es, states, last);
      assert hooks - {last} == map[];
    } else {
      var hook :| hook in hooks && hook != last;
      es', states' := HookRuns(want, es, states, hook);
      assert hooks.Keys == (hooks - {hook}).Keys + {hook};
      es', states' := AllRun(want, es', states', last);
    }
  }

  /** A waiting hook can be made the last one to run. */
  lemma WaitingHookMayBeLast(want: bool, es: seq<Event>, states: seq<Client>, hook: nat)
      returns (es': seq<Event>, states': seq<Client>)
    requires IsRun(want, es, states) && hook in states[|es|].hooks && states[|es|].hooks[hook].Waiting?
    ensures IsRun(want, es', states') && Continues(es, es') && Idle(states'[|es'|])
    ensures states'[|es'|].enabled == states'[|es'|].tunnel == states[|es|].hooks[hook].on
  {
    es', states' := AllSpawn(want, es, states, hook);
    es', states' := LockReleased(want, es', states');
    es', states' := AllRun(want, es', states', hook);
  }

  /** Anything that opposes `on` with its commands still to run can be made to run last. */
  lemma OpponentMayBeLast(want: bool, es: seq<Event>, states: seq<Client>, on: bool)
      returns (es': seq<Event>, states': seq<Client>)
    requires IsRun(want, es, states) && !Unopposed(states[|es|], on)
    ensures IsRun(want, es', states') && Continues(es, es') && Idle(states'[|es'|])
    ensures states'[|es'|].enabled == states'[|es'|].tunnel == !on
  {
    var c := states[|es|];
    if h :| h in c.handlers && c.handlers[h].on != on {
      var hook;
      es', states', hook := HandlerSpawns(want, es, states, h);
      es', states' := WaitingHookMayBeLast(want, es', states', hook);
    } else {
      var hook :| hook in c.hooks && c.hooks[hook].Waiting? && c.hooks[hook].on != on;
      es', states' := WaitingHookMayBeLast(want, es, states, hook);
    }
  }

  /** The request took no effect and a lone hook has only its opposite flag left to store. */
  lemma LoneHookStores(want: bool, es: seq<Event>, states: seq<Client>, on: bool)
      returns (es': seq<Event>, states': seq<Client>)
    requires IsRun(want, es, states)
    requires Unopposed(states[|es|], on) && !Allied(states[|es|], on) && states[|es|].hooks != map[]
    ensures IsRun(want, es', states') && Continues(es, es') && Idle(states'[|es'|])
    ensures states'[|es'|].enabled == !on
  {
    RunKeepsInv(want, es, states, |es|);
    var hooks := states[|es|].hooks;
    var hook :| hook in hooks;
    forall h | h in hooks
      ensures h == hook
    {
      assert hooks[h].Applied? && hooks[hook].Applied?;
    }
    es', states' := OneMore(want, es, states, Finish(hook));
    assert hooks - {hook} == map[];
  }

  /** Without `Certain` the request can lose: after every run, some continuation without a further
      request ends, with nothing in flight, at the opposite flag. */
  lemma UncertainRequestMayLose(want: bool, es: seq<Event>, states: seq<Client>, id: nat, on: bool)
      returns (es': seq<Event>, states': seq<Client>)
    requires IsRun(want, es, states) && Possible(states[|es|], Request(id, on)) && !Certain(states[|es|], on)
    ensures IsRun(want, es', states') && Continues(es + [Request(id, on)], es')
    ensures Idle(states'[|es'|]) && states'[|es'|].enabled == !on
  {
    var c := states[|es|];
    es', states' := OneMore(want, es, states, Request(id, on));
    var c' := states'[|es'|];
    if !Unopposed(c, on) {
      assert forall h :: h in c.handlers ==> h in c'.handlers && c'.handlers[h] == c.handlers[h];
      es', states' := OpponentMayBeLast(want, es', states', on);
    } else {
      es', states' := LoneHookStores(want, es', states', on);
    }
  }

  lemma RequestSteps(want: bool, c: Client, id: nat, on: bool)
    requires c.enabled != on && id !in c.handlers && id !in c.hooks
    ensures var c1 := c.(handlers := c.handlers[id := Checked(on)]);
            var c2 := c.(enabled := on, handlers := c.handlers[id := Stored(on)]);
            && Possible(c, Request(id, on)) && Step(want, c, Request(id, on)) == c1
            && Possible(c1, Store(id)) && Step(want, c1, Store(id)) == c2
            && Possible(c2, Spawn(id, id))
            && Step(want, c2, Spawn(id, id)) == c.(enabled := on, hooks := c.hooks[id := Waiting(on)])
  {
    assert c.handlers[id := Checked(on)][id := Stored(on)] == c.handlers[id := Stored(on)];
    assert c.handlers[id := Stored(on)] - {id} == c.handlers;
  }

  /** A request for the opposite of the flag, carried through to a waiting hook. */
  lemma RequestUntilSpawned(want: bool, es: seq<Event>, states: seq<Client>, id: nat, on: bool)
      returns (es': seq<Event>, states': seq<Client>)
    requires IsRun(want, es, states)
    requires states[|es|].enabled != on && id !in states[|es|].handlers && id !in states[|es|].hooks
    ensures IsRun(want, es', states') && es' == es + [Request(id, on), Store(id), Spawn(id, id)]
    ensures var c := states[|es|];
            states'[|es'|] == c.(enabled := on, hooks := c.hooks[id := Waiting(on)])
  {
    RequestSteps(want, states[|es|], id, on);
    es', states' := OneMore(want, es, states, Request(id, on));
    es', states' := OneMore(want, es', states', Store(id));
    es', states' := OneMore(want, es', states', Spawn(id, id));
  }

  /** The last request need not win: `off` then `on` may end with everything off. */
  lemma LastRequestMayLose(want: bool) returns (es: seq<Event>, states: seq<Client>)
    ensures IsRun(want, es, states) && Quiescent(states[|es|])
    ensures es == [Request(0, false), Store(0), Spawn(0, 0), Request(1, true), Store(1), Spawn(1, 1),
                   Apply(1, AllWorked), Finish(1), Apply(0, AllWorked), Finish(0)]
    ensures !states[|es|].enabled && !states[|es|].tunnel
  {
    es, states := RequestUntilSpawned(want, [], [Start(want, AllWorked)], 0, false);
    es, states := RequestUntilSpawned(want, es, states, 1, true);
    es, states := HookRuns(want, es, states, 1);
    es, states := HookRuns(want, es, states, 0);
  }
}
