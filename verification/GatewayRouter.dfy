/** The gateway router: routes of the virtual models, a circuit breaker, and the state file. */
module GatewayRouter {
  import opened Wrappers

  /** A virtual model of the gateway, or a name that is none. */
  datatype Name = Chat | Coder | Reasoning | Embedding | Other(name: string)

  datatype Route = Route(
    virtualModel: Name,
    targetModel: string,
    backendType: string,
    backendUrl: string,
    healthy: bool,
    latencyMs: real)

  const FAILOVER_PREFIX := "failover:"
  const CLUSTER_URL := "http://ollama-fast.llm.svc.cluster.local:11434"
  const EMBEDDING_URL := "http://ollama-24gib-embed-gpu0.llm.svc.cluster.local:11434"

  const CHAT_MODEL := "qwen3.8:27b"
  const EMBEDDING_MODEL := "qwen3-embedding:0.6b"
  const OLLAMA := "ollama"

  const VIRTUAL_MODELS := [Chat, Coder, Reasoning, Embedding]

  function DefaultRoutes(): seq<Route> {
    [ Route(Chat, CHAT_MODEL, OLLAMA, CLUSTER_URL, true, 0.0),
      Route(Coder, CHAT_MODEL, OLLAMA, CLUSTER_URL, true, 0.0),
      Route(Reasoning, CHAT_MODEL, OLLAMA, CLUSTER_URL, true, 0.0),
      Route(Embedding, EMBEDDING_MODEL, OLLAMA, EMBEDDING_URL, true, 0.0) ]
  }

  /** The secondary of each virtual model; Other stands for the direct call of Ollama. */
  function Fallback(vm: Name): Name {
    match vm
    case Reasoning => Coder
    case Coder => Chat
    case _ => Other("direct-ollama")
  }

  predicate IsFailover(r: Route) {
    FAILOVER_PREFIX <= r.backendType
  }

  function FailoverRoutes(routes: seq<Route>): seq<Route> {
    if routes == [] then []
    else (if IsFailover(routes[0]) then [routes[0]] else []) + FailoverRoutes(routes[1..])
  }

  function VirtualModels(routes: seq<Route>): seq<Name> {
    seq(|routes|, i requires 0 <= i < |routes| => routes[i].virtualModel)
  }

  // ----- the state file

  datatype StateFile = Missing | Unreadable | Written(breaker: bool, routes: seq<Route>)

  /** The last listed failover route of the virtual model, or the given route. */
  function SavedOr(routes: seq<Route>, r: Route): Route {
    if routes == [] then r
    else
      var last := routes[|routes| - 1];
      if IsFailover(last) && last.virtualModel == r.virtualModel then last
      else SavedOr(routes[..|routes| - 1], r)
  }

  function Restored(saved: seq<Route>): seq<Route> {
    seq(|DefaultRoutes()|, i requires 0 <= i < |DefaultRoutes()| => SavedOr(saved, DefaultRoutes()[i]))
  }

  function Load(f: StateFile): (bool, seq<Route>) {
    match f
    case Missing => (false, DefaultRoutes())
    case Unreadable => (false, DefaultRoutes())
    case Written(breaker, routes) => (breaker, Restored(routes))
  }

  /** A save that fails leaves the old file in place. */
  function Save(f: StateFile, breaker: bool, routes: seq<Route>, succeeds: bool): StateFile {
    if succeeds then Written(breaker, FailoverRoutes(routes)) else f
  }

  // ----- the operations

  datatype State = State(file: StateFile, breaker: bool, routes: seq<Route>)

  function Open(file: StateFile): State {
    State(file, Load(file).0, Load(file).1)
  }

  function WithHealth(routes: seq<Route>, ok: bool, latency: real): seq<Route> {
    seq(|routes|, i requires 0 <= i < |routes| =>
      routes[i].(healthy := ok, latencyMs := if ok then latency else 0.0))
  }

  /** A probe records the health; failover routes stay, and while there are any the breaker is tripped. */
  function Probe(s: State, ok: bool, latency: real, saved: bool): State {
    var breaker := !ok || FailoverRoutes(s.routes) != [];
    var routes := WithHealth(s.routes, ok, latency);
    State(Save(s.file, breaker, routes, saved), breaker, routes)
  }

  /** The first route of the virtual model. */
  function RouteOf(routes: seq<Route>, vm: Name): Option<Route> {
    if routes == [] then None else if routes[0].virtualModel == vm then Some(routes[0]) else RouteOf(routes[1..], vm)
  }

  /** The route that a failover of vm takes over: that of its fallback, or its own default route. */
  function FallbackRoute(vm: Name, routes: seq<Route>): (r: Route)
    requires !vm.Other?
  {
    var active := RouteOf(routes, Fallback(vm));
    if active.Some? then active.value
    else
      var d := RouteOf(DefaultRoutes(), vm);
      assert d.Some?;
      d.value
  }

  function Rerouted(routes: seq<Route>, vm: Name, to: Route): seq<Route> {
    seq(|routes|, i requires 0 <= i < |routes| =>
      if routes[i].virtualModel == vm then
        routes[i].(targetModel := to.targetModel, backendType := FAILOVER_PREFIX + to.backendType,
                   backendUrl := to.backendUrl, healthy := true)
      else routes[i].(healthy := true))
  }

  datatype Outcome = UnknownModel | CapabilityRefused | Simulated(target: string) | Active(target: string)

  /** `refused` is the answer of the capability gate. It, an unknown model and a simulation leave the state alone. */
  function Failover(s: State, vm: Name, simulate: bool, refused: bool, saved: bool): (State, Outcome) {
    if vm.Other? then (s, UnknownModel)
    else
      var to := FallbackRoute(vm, s.routes);
      if refused then (s, CapabilityRefused)
      else if simulate then (s, Simulated(to.targetModel))
      else
        var routes := Rerouted(s.routes, vm, to);
        (State(Save(s.file, true, routes, saved), true, routes), Active(to.targetModel))
  }

  function Reset(s: State, saved: bool): State {
    State(Save(s.file, false, DefaultRoutes(), saved), false, DefaultRoutes())
  }

  class Router {
    var stateFile: StateFile
    var circuitBreakerActive: bool
    var activeRoutes: seq<Route>

    function Value(): State
      reads this
    {
      State(stateFile, circuitBreakerActive, activeRoutes)
    }

    /** Starts from what the state file holds. */
    constructor (file: StateFile)
      ensures Value() == Open(file)
    {
      stateFile := file;
      circuitBreakerActive, activeRoutes := Load(file).0, Load(file).1;
    }

    method SaveState(succeeds: bool)
      modifies `stateFile
      ensures stateFile == Save(old(stateFile), circuitBreakerActive, activeRoutes, succeeds)
    {
      if succeeds {
        stateFile := Written(circuitBreakerActive, FailoverRoutes(activeRoutes));
      }
    }

    /** Records the answer of a health probe; returns the virtual models on a failover route. */
    method ProbeGateway(ok: bool, latency: real, saved: bool) returns (failover: seq<Name>)
      modifies this
      ensures Value() == Probe(old(Value()), ok, latency, saved)
      ensures failover == VirtualModels(FailoverRoutes(old(activeRoutes)))
    {
      failover := VirtualModels(FailoverRoutes(activeRoutes));
      circuitBreakerActive := !ok || failover != [];
      activeRoutes := WithHealth(activeRoutes, ok, latency);
      SaveState(saved);
    }

    method TriggerFailover(vm: Name, simulate: bool, refused: bool, saved: bool) returns (outcome: Outcome)
      modifies this
      ensures (Value(), outcome) == Failover(old(Value()), vm, simulate, refused, saved)
    {
      if vm.Other? {
        return UnknownModel;
      }
      var to := FallbackRoute(vm, activeRoutes);
      if refused {
        return CapabilityRefused;
      }
      if !simulate {
        circuitBreakerActive := true;
        activeRoutes := Rerouted(activeRoutes, vm, to);
        SaveState(saved);
        return Active(to.targetModel);
      }
      return Simulated(to.targetModel);
    }

    method ResetFailover(saved: bool) returns (restored: seq<Name>)
      modifies this
      ensures Value() == Reset(old(Value()), saved)
      ensures restored == VirtualModels(FailoverRoutes(old(activeRoutes)))
    {
      restored := VirtualModels(FailoverRoutes(activeRoutes));
      circuitBreakerActive, activeRoutes := false, DefaultRoutes();
      SaveState(saved);
    }
  }

  // ----- the invariant

  /** Number of failovers stacked in a backend type. */
  function Depth(backendType: string): nat {
    if FAILOVER_PREFIX <= backendType then 1 + Depth(backendType[|FAILOVER_PREFIX|..]) else 0
  }

  function Base(backendType: string): string {
    if FAILOVER_PREFIX <= backendType then Base(backendType[|FAILOVER_PREFIX|..]) else backendType
  }

  function Rank(vm: Name): nat {
    if vm.Reasoning? then 2 else if vm.Coder? then 1 else 0
  }

  /** Number of fallbacks from vm down to the direct route. */
  function ChainLength(vm: Name): nat
    decreases Rank(vm)
  {
    if Fallback(vm).Other? then 1 else 1 + ChainLength(Fallback(vm))
  }

  /** Target and URL are those of one default route; failovers are stacked no deeper than the fallback
      chain, on a default backend. */
  ghost predicate RouteOk(r: Route) {
    && (exists d :: d in DefaultRoutes() && r.targetModel == d.targetModel && r.backendUrl == d.backendUrl
                    && Base(r.backendType) == d.backendType)
    && Depth(r.backendType) <= ChainLength(r.virtualModel)
  }

  ghost predicate RoutesOk(routes: seq<Route>) {
    VirtualModels(routes) == VIRTUAL_MODELS && forall r :: r in routes ==> RouteOk(r)
  }

  ghost predicate FileOk(f: StateFile) {
    f.Written? ==>
      && (forall r :: r in f.routes ==> RouteOk(r) && IsFailover(r))
      && (f.routes != [] ==> f.breaker)
  }

  ghost predicate Inv(s: State) {
    && RoutesOk(s.routes) && FileOk(s.file)
    && (FailoverRoutes(s.routes) != [] ==> s.breaker)
  }

  lemma {:induction false} FailoverRoutesMeans(routes: seq<Route>)
    ensures forall r :: r in FailoverRoutes(routes) <==> r in routes && IsFailover(r)
  {
    if routes != [] {
      FailoverRoutesMeans(routes[1..]);
    }
  }

  lemma OllamaIsPlain()
    ensures !(FAILOVER_PREFIX <= OLLAMA) && Base(OLLAMA) == OLLAMA && Depth(OLLAMA) == 0
  {
    assert FAILOVER_PREFIX[0] != OLLAMA[0];
  }

  /** A default route is sound, is no failover, and is the one of its virtual model. */
  lemma DefaultOk(r: Route)
    requires r in DefaultRoutes()
    ensures RouteOk(r) && !IsFailover(r) && !r.virtualModel.Other?
  {
    OllamaIsPlain();
    hide Base, Depth;
  }

  lemma DefaultNames()
    ensures |DefaultRoutes()| == 4 && VirtualModels(DefaultRoutes()) == VIRTUAL_MODELS
  {
  }

  lemma DefaultsOk()
    ensures RoutesOk(DefaultRoutes()) && FailoverRoutes(DefaultRoutes()) == []
  {
    hide DefaultRoutes, RouteOk, IsFailover;
    DefaultNames();
    FailoverRoutesMeans(DefaultRoutes());
    forall r | r in DefaultRoutes()
      ensures RouteOk(r) && !IsFailover(r)
    {
      DefaultOk(r);
    }
    NoneIsEmpty(FailoverRoutes(DefaultRoutes()));
  }

  lemma NoneIsEmpty(routes: seq<Route>)
    ensures (forall r :: r !in routes) ==> routes == []
  {
    if routes != [] {
      assert routes[0] in routes;
    }
  }

  lemma SaveOk(f: StateFile, breaker: bool, routes: seq<Route>, saved: bool)
    requires FileOk(f) && RoutesOk(routes) && (FailoverRoutes(routes) != [] ==> breaker)
    ensures FileOk(Save(f, breaker, routes, saved))
  {
    FailoverRoutesMeans(routes);
  }

  lemma {:induction false} SavedOrMeans(saved: seq<Route>, r: Route)
    ensures var x := SavedOr(saved, r);
            x == r || (x in saved && IsFailover(x) && x.virtualModel == r.virtualModel)
  {
    if saved != [] {
      SavedOrMeans(saved[..|saved| - 1], r);
    }
  }

  /** Of several failover routes that a file lists for one virtual model the last one counts; a route that is
      no failover counts for nothing. */
  lemma {:induction false} SavedOrIsLast(saved: seq<Route>, d: Route)
    ensures var x := SavedOr(saved, d);
            if exists j :: ListsFor(saved, d.virtualModel, j) then
              exists j :: ListsFor(saved, d.virtualModel, j) && x == saved[j]
                          && forall k :: j < k < |saved| ==> !ListsFor(saved, d.virtualModel, k)
            else x == d
    decreases |saved|
  {
    if saved != [] {
      var n := |saved| - 1;
      var before := saved[..n];
      SavedOrIsLast(before, d);
      assert forall j :: 0 <= j < n ==> (ListsFor(before, d.virtualModel, j) <==> ListsFor(saved, d.virtualModel, j));
      if ListsFor(saved, d.virtualModel, n) {
        assert SavedOr(saved, d) == saved[n];
      } else if j :| ListsFor(saved, d.virtualModel, j) {
        assert ListsFor(before, d.virtualModel, j);
      }
    }
  }

  predicate ListsFor(saved: seq<Route>, vm: Name, j: int) {
    0 <= j < |saved| && "failover:" <= saved[j].backendType && saved[j].virtualModel == vm
  }

  /** A router opens with a closed breaker and the default routes when there is no file or it cannot be
      read, and otherwise with the breaker of the file and the routes that SavedOrIsLast is about. */
  lemma OpenMeans(f: StateFile)
    ensures !f.Written? ==> Open(f).routes == DefaultRoutes() && !Open(f).breaker
    ensures f.Written? ==>
              && Open(f).breaker == f.breaker && |Open(f).routes| == 4
              && forall i :: 0 <= i < 4 ==> Open(f).routes[i] == SavedOr(f.routes, DefaultRoutes()[i])
    ensures Open(f).file == f
  {
  }

  /** Each restored route is a saved failover route of that virtual model, or the default route. */
  lemma RestoredMeans(saved: seq<Route>, i: nat)
    requires i < |DefaultRoutes()|
    ensures var r := Restored(saved)[i];
            && r.virtualModel == DefaultRoutes()[i].virtualModel
            && (r == DefaultRoutes()[i] || (r in saved && IsFailover(r)))
  {
    SavedOrMeans(saved, DefaultRoutes()[i]);
  }

  /** Opening the state file gives an invariant state. */
  lemma OpenKeepsInv(f: StateFile)
    requires FileOk(f)
    ensures Inv(Open(f))
  {
    DefaultsOk();
    if f.Written? {
      RestoredOk(f.routes);
    }
  }

  lemma RestoredOk(saved: seq<Route>)
    requires forall r :: r in saved ==> RouteOk(r) && IsFailover(r)
    ensures RoutesOk(Restored(saved))
    ensures saved == [] ==> FailoverRoutes(Restored(saved)) == []
  {
    hide DefaultRoutes, RouteOk, IsFailover;
    var routes := Restored(saved);
    DefaultNames();
    assert VirtualModels(routes) == VIRTUAL_MODELS by {
      forall i | 0 <= i < |routes|
        ensures VirtualModels(routes)[i] == VirtualModels(DefaultRoutes())[i]
      {
        RestoredMeans(saved, i);
      }
    }
    forall r | r in routes
      ensures RouteOk(r) && (saved == [] ==> !IsFailover(r))
    {
      var i :| 0 <= i < |routes| && routes[i] == r;
      RestoredMeans(saved, i);
      DefaultOk(DefaultRoutes()[i]);
    }
    FailoverRoutesMeans(routes);
    NoneIsEmpty(FailoverRoutes(routes));
  }

  // ----- every operation keeps the invariant

  lemma WithHealthOk(routes: seq<Route>, ok: bool, latency: real)
    requires RoutesOk(routes)
    ensures RoutesOk(WithHealth(routes, ok, latency))
    ensures FailoverRoutes(WithHealth(routes, ok, latency)) != [] ==> FailoverRoutes(routes) != []
  {
    hide Base, Depth, ChainLength, DefaultRoutes, IsFailover;
    var after := WithHealth(routes, ok, latency);
    assert VirtualModels(after) == VirtualModels(routes);
    forall r | r in after
      ensures RouteOk(r) && (IsFailover(r) ==> exists q :: q in routes && IsFailover(q))
    {
      var i :| 0 <= i < |after| && after[i] == r;
      SameBackend(routes[i], r);
      assert routes[i] in routes;
    }
    FailoverRoutesMeans(routes);
    FailoverRoutesMeans(after);
    NoneIsEmpty(FailoverRoutes(after));
  }

  /** Health and latency have no part in what a route is. */
  lemma SameBackend(q: Route, r: Route)
    requires r == q.(healthy := r.healthy, latencyMs := r.latencyMs)
    ensures RouteOk(q) <==> RouteOk(r)
    ensures IsFailover(q) <==> IsFailover(r)
  {
    hide Base, Depth, ChainLength, DefaultRoutes;
  }

  lemma ProbeKeepsInv(s: State, ok: bool, latency: real, saved: bool)
    requires Inv(s)
    ensures Inv(Probe(s, ok, latency, saved))
  {
    hide RoutesOk, FileOk, WithHealth;
    WithHealthOk(s.routes, ok, latency);
    SaveOk(s.file, !ok || FailoverRoutes(s.routes) != [], WithHealth(s.routes, ok, latency), saved);
  }

  lemma {:induction false} RouteOfMeans(routes: seq<Route>, vm: Name)
    ensures var r := RouteOf(routes, vm);
            if r.Some? then r.value in routes && r.value.virtualModel == vm
            else forall q :: q in routes ==> q.virtualModel != vm
  {
    if routes != [] {
      RouteOfMeans(routes[1..], vm);
    }
  }

  /** The route to fail over to is sound, and one failover less deep than the chain of vm. */
  lemma FallbackOk(routes: seq<Route>, vm: Name)
    requires RoutesOk(routes) && !vm.Other?
    ensures var to := FallbackRoute(vm, routes);
            && (exists d :: d in DefaultRoutes() && to.targetModel == d.targetModel && to.backendUrl == d.backendUrl
                            && Base(to.backendType) == d.backendType)
            && Depth(to.backendType) + 1 <= ChainLength(vm)
  {
    var to := FallbackRoute(vm, routes);
    RouteOfMeans(routes, Fallback(vm));
    if RouteOf(routes, Fallback(vm)).Some? {
      assert RouteOk(to);
      NamesAreKnown(routes, to);
      hide Base, Depth, DefaultRoutes;
    } else {
      RouteOfMeans(DefaultRoutes(), vm);
      DefaultOk(to);
      OllamaIsPlain();
      hide Base, Depth;
      assert to.backendType == OLLAMA;
      FallbackIsActive(routes, vm);
    }
  }

  lemma NamesAreKnown(routes: seq<Route>, r: Route)
    requires RoutesOk(routes) && r in routes
    ensures !r.virtualModel.Other?
  {
    var i :| 0 <= i < |routes| && routes[i] == r;
    assert VirtualModels(routes)[i] == r.virtualModel;
  }

  /** Only a fallback to the direct route finds no active route. */
  lemma FallbackIsActive(routes: seq<Route>, vm: Name)
    requires RoutesOk(routes) && !vm.Other? && RouteOf(routes, Fallback(vm)).None?
    ensures Fallback(vm).Other?
  {
    RouteOfMeans(routes, Fallback(vm));
    assert |VirtualModels(routes)| == 4;
    assert VirtualModels(routes)[0] == routes[0].virtualModel == Chat && routes[0] in routes;
    assert VirtualModels(routes)[1] == routes[1].virtualModel == Coder && routes[1] in routes;
  }

  lemma FailoverDeepens(backendType: string)
    ensures Depth(FAILOVER_PREFIX + backendType) == 1 + Depth(backendType)
    ensures Base(FAILOVER_PREFIX + backendType) == Base(backendType)
  {
    assert (FAILOVER_PREFIX + backendType)[|FAILOVER_PREFIX|..] == backendType;
  }

  lemma ReroutedOk(routes: seq<Route>, vm: Name)
    requires RoutesOk(routes) && !vm.Other?
    ensures RoutesOk(Rerouted(routes, vm, FallbackRoute(vm, routes)))
  {
    var to := FallbackRoute(vm, routes);
    FallbackOk(routes, vm);
    FailoverDeepens(to.backendType);
    hide Base, Depth, ChainLength, DefaultRoutes, FallbackRoute;
    var after := Rerouted(routes, vm, to);
    assert VirtualModels(after) == VirtualModels(routes);
    forall r | r in after
      ensures RouteOk(r)
    {
      var i :| 0 <= i < |after| && after[i] == r;
      assert routes[i] in routes;
      if routes[i].virtualModel != vm {
        SameBackend(routes[i], r);
      }
    }
  }

  lemma FailoverKeepsInv(s: State, vm: Name, simulate: bool, refused: bool, saved: bool)
    requires Inv(s)
    ensures Inv(Failover(s, vm, simulate, refused, saved).0)
  {
    if !vm.Other? {
      ReroutedOk(s.routes, vm);
      hide RoutesOk, FileOk, Rerouted, FallbackRoute;
      SaveOk(s.file, true, Rerouted(s.routes, vm, FallbackRoute(vm, s.routes)), saved);
    }
  }

  lemma ResetKeepsInv(s: State, saved: bool)
    requires Inv(s)
    ensures Inv(Reset(s, saved))
  {
    DefaultsOk();
    hide RoutesOk, FileOk, DefaultRoutes;
    SaveOk(s.file, false, DefaultRoutes(), saved);
  }

  // ----- runs

  /** `saved` says whether the state file could be written, `read` whether it could be read. */
  datatype Op =
    | ProbeOp(ok: bool, latency: real, saved: bool)
    | FailoverOp(vm: Name, simulate: bool, refused: bool, saved: bool)
    | ResetOp(saved: bool)
    | ReopenOp(read: bool)

  function Apply(s: State, op: Op): State {
    match op
    case ProbeOp(ok, latency, saved) => Probe(s, ok, latency, saved)
    case FailoverOp(vm, simulate, refused, saved) => Failover(s, vm, simulate, refused, saved).0
    case ResetOp(saved) => Reset(s, saved)
    case ReopenOp(read) => if read then Open(s.file) else State(s.file, false, DefaultRoutes())
  }

  function ApplyAll(s: State, ops: seq<Op>): State
    decreases |ops|
  {
    if ops == [] then s else ApplyAll(Apply(s, ops[0]), ops[1..])
  }

  lemma ReopenKeepsInv(s: State, read: bool)
    requires Inv(s)
    ensures Inv(Apply(s, ReopenOp(read)))
  {
    OpenKeepsInv(s.file);
    DefaultsOk();
    hide RoutesOk, FileOk, DefaultRoutes, Open;
  }

  /** Every operation keeps the invariant, whether or not its save succeeds. */
  lemma ApplyKeepsInv(s: State, op: Op)
    requires Inv(s)
    ensures Inv(Apply(s, op))
  {
    hide Inv, Probe, Failover, Reset;
    match op
    case ProbeOp(ok, latency, saved) => ProbeKeepsInv(s, ok, latency, saved);
    case FailoverOp(vm, simulate, refused, saved) => FailoverKeepsInv(s, vm, simulate, refused, saved);
    case ResetOp(saved) => ResetKeepsInv(s, saved);
    case ReopenOp(read) => ReopenKeepsInv(s, read);
  }

  /** In every state that is reachable from a first start: the virtual models are the default ones in
      order, every target and URL is that of a default route, failovers are nested no deeper than the
      fallback chain, and a failover route means a tripped breaker. */
  lemma {:induction false} ReachableKeepsInv(s: State, ops: seq<Op>)
    requires Inv(s)
    ensures Inv(ApplyAll(s, ops))
    decreases |ops|
  {
    if ops != [] {
      hide Inv, Apply;
      ApplyKeepsInv(s, ops[0]);
      ReachableKeepsInv(Apply(s, ops[0]), ops[1..]);
    }
  }

  lemma FirstStart()
    ensures Inv(Open(Missing)) && Synced(Open(Missing))
  {
    OpenKeepsInv(Missing);
  }

  // ----- save, then load

  predicate Distinct(routes: seq<Route>) {
    forall i, j :: 0 <= i < j < |routes| ==> routes[i].virtualModel != routes[j].virtualModel
  }

  lemma JoinRoutes(a: seq<Route>, b: seq<Route>, c: seq<Route>)
    ensures a + (b + c) == (a + b) + c
  {
  }

  lemma {:induction false} FailoverRoutesAppend(a: seq<Route>, r: Route)
    ensures FailoverRoutes(a + [r]) == FailoverRoutes(a) + if IsFailover(r) then [r] else []
  {
    hide IsFailover;
    if a == [] {
      assert [r][1..] == [] && a + [r] == [r];
    } else {
      assert (a + [r])[0] == a[0] && (a + [r])[1..] == a[1..] + [r];
      FailoverRoutesAppend(a[1..], r);
      JoinRoutes(if IsFailover(a[0]) then [a[0]] else [], FailoverRoutes(a[1..]), if IsFailover(r) then [r] else []);
    }
  }

  /** A route is found again under its virtual model if it is a failover route, and only then. */
  lemma {:induction false} SavedRouteIsFound(routes: seq<Route>, i: nat, d: Route)
    requires Distinct(routes) && i < |routes| && d.virtualModel == routes[i].virtualModel
    ensures SavedOr(FailoverRoutes(routes), d) == if IsFailover(routes[i]) then routes[i] else d
    decreases |routes|
  {
    hide IsFailover;
    var m := |routes| - 1;
    var before, last := routes[..m], routes[m];
    assert routes == before + [last];
    FailoverRoutesAppend(before, last);
    var saved := FailoverRoutes(before);
    if IsFailover(last) {
      assert (saved + [last])[..|saved|] == saved && (saved + [last])[|saved|] == last;
    } else {
      assert saved + [] == saved;
    }
    if i < m {
      SavedRouteIsFound(before, i, d);
    } else if !IsFailover(last) {
      assert forall q :: q in before ==> q.virtualModel != d.virtualModel;
      OtherRoutesAreNotFound(before, d);
    }
  }

  lemma {:induction false} OtherRoutesAreNotFound(routes: seq<Route>, d: Route)
    requires forall q :: q in routes ==> q.virtualModel != d.virtualModel
    ensures SavedOr(FailoverRoutes(routes), d) == d
  {
    FailoverRoutesMeans(routes);
    SavedOrMeans(FailoverRoutes(routes), d);
  }

  lemma RoutesAreDistinct(routes: seq<Route>)
    requires RoutesOk(routes)
    ensures |routes| == 4 && Distinct(routes)
  {
    hide RouteOk;
    assert |VirtualModels(routes)| == |routes|;
    forall i, j | 0 <= i < j < |routes|
      ensures routes[i].virtualModel != routes[j].virtualModel
    {
      assert VirtualModels(routes)[i] == routes[i].virtualModel && VirtualModels(routes)[j] == routes[j].virtualModel;
    }
  }

  /** Saving and loading brings back the breaker and every failover route as it was; the other routes
      come back as their defaults. */
  lemma SaveThenLoad(s: State)
    requires Inv(s)
    ensures var (breaker, routes) := Load(Save(s.file, s.breaker, s.routes, true));
            && breaker == s.breaker && |routes| == |s.routes| == |DefaultRoutes()|
            && forall i :: 0 <= i < |routes| ==>
                 routes[i] == if IsFailover(s.routes[i]) then s.routes[i] else DefaultRoutes()[i]
  {
    RoutesAreDistinct(s.routes);
    DefaultNames();
    hide DefaultRoutes, IsFailover, RouteOk, FileOk;
    var routes := Restored(FailoverRoutes(s.routes));
    forall i | 0 <= i < |routes|
      ensures routes[i] == if IsFailover(s.routes[i]) then s.routes[i] else DefaultRoutes()[i]
    {
      assert VirtualModels(s.routes)[i] == s.routes[i].virtualModel;
      assert VirtualModels(DefaultRoutes())[i] == DefaultRoutes()[i].virtualModel;
      SavedRouteIsFound(s.routes, i, DefaultRoutes()[i]);
    }
  }

  /** at lists, in order, the places of the failover routes. */
  ghost predicate FailoversAt(routes: seq<Route>, at: seq<nat>) {
    && (forall k, l :: 0 <= k < l < |at| ==> at[k] < at[l])
    && (forall i: nat :: i in at <==> i < |routes| && "failover:" <= routes[i].backendType)
  }

  ghost predicate ListedAt(routes: seq<Route>, at: seq<nat>, listed: seq<Route>) {
    |listed| == |at| && forall k :: 0 <= k < |at| ==> at[k] < |routes| && listed[k] == routes[at[k]]
  }

  lemma FailoversAtNext(routes: seq<Route>, r: Route, at: seq<nat>)
    requires FailoversAt(routes, at)
    ensures FailoversAt(routes + [r], at + if IsFailover(r) then [|routes|] else [])
  {
    var all, n := routes + [r], |routes|;
    var at' := at + if IsFailover(r) then [n] else [];
    assert forall k :: 0 <= k < |at| ==> at[k] in at;
    assert forall i: nat :: i in at' <==> i in at || (i == n && IsFailover(r));
    assert forall i: nat :: i < n ==> all[i] == routes[i];
  }

  lemma ListedNext(routes: seq<Route>, r: Route, at: seq<nat>, listed: seq<Route>)
    requires ListedAt(routes, at, listed)
    ensures ListedAt(routes + [r], at + if IsFailover(r) then [|routes|] else [],
                     listed + if IsFailover(r) then [r] else [])
  {
    hide IsFailover;
  }

  /** The failover routes are listed in the order of the routes. */
  lemma {:induction false} FailoversInOrder(routes: seq<Route>) returns (at: seq<nat>)
    ensures FailoversAt(routes, at) && ListedAt(routes, at, FailoverRoutes(routes))
    decreases |routes|
  {
    at := [];
    if routes != [] {
      var n := |routes| - 1;
      var before, r := routes[..n], routes[n];
      assert routes == before + [r];
      FailoverRoutesAppend(before, r);
      hide FailoversAt, ListedAt, FailoverRoutes, IsFailover;
      at := FailoversInOrder(before);
      FailoversAtNext(before, r, at);
      ListedNext(before, r, at, FailoverRoutes(before));
      at := at + if IsFailover(r) then [n] else [];
    }
  }

  // ----- what failover and probe do

  /** The route whose backend a failover of vm takes over, by its place in the list: coder falls back to
      chat and reasoning to coder; chat and embedding call their own default backend directly. */
  function TakenOver(s: State, vm: Name): Route
    requires |s.routes| == 4 && !vm.Other?
  {
    match vm
    case Chat => DefaultRoutes()[0]
    case Coder => s.routes[0]
    case Reasoning => s.routes[1]
    case Embedding => DefaultRoutes()[3]
  }

  /** The place of the route of vm. */
  function Place(vm: Name): nat {
    match vm
    case Chat => 0
    case Coder => 1
    case Reasoning => 2
    case _ => 3
  }

  lemma NameAt(routes: seq<Route>, vm: Name)
    requires RoutesOk(routes) && !vm.Other?
    ensures |routes| == 4
    ensures forall i :: 0 <= i < 4 ==> (routes[i].virtualModel == vm <==> i == Place(vm))
  {
    RoutesAreDistinct(routes);
    hide RouteOk;
    forall i | 0 <= i < 4
      ensures routes[i].virtualModel == VIRTUAL_MODELS[i]
    {
      assert VirtualModels(routes)[i] == routes[i].virtualModel;
    }
  }

  lemma FirstRoute(routes: seq<Route>, vm: Name)
    requires RoutesOk(routes) && !vm.Other?
    ensures |routes| == 4 && RouteOf(routes, vm) == Some(routes[Place(vm)])
  {
    NameAt(routes, vm);
    RouteOfMeans(routes, vm);
    hide RoutesOk, RouteOf;
    assert routes[Place(vm)] in routes;
  }

  lemma NoDirectRoute(routes: seq<Route>)
    requires RoutesOk(routes)
    ensures RouteOf(routes, Other("direct-ollama")) == None
  {
    RouteOfMeans(routes, Other("direct-ollama"));
    var r := RouteOf(routes, Other("direct-ollama"));
    if r.Some? {
      NamesAreKnown(routes, r.value);
    }
  }

  lemma TakesOver(s: State, vm: Name)
    requires Inv(s) && !vm.Other?
    ensures |s.routes| == 4 && FallbackRoute(vm, s.routes) == TakenOver(s, vm)
  {
    RoutesAreDistinct(s.routes);
    NoDirectRoute(s.routes);
    DefaultsOk();
    FirstRoute(s.routes, Chat);
    FirstRoute(s.routes, Coder);
    FirstRoute(DefaultRoutes(), Chat);
    FirstRoute(DefaultRoutes(), Embedding);
    hide Inv, RoutesOk, RouteOf, DefaultRoutes;
  }

  /** A failover that is neither refused nor simulated fails over: the route of vm, and only that, gets the
      target and the URL of the route that it takes over, and a backend one failover deeper; all routes
      count as healthy; the breaker is tripped; the outcome names the new target. */
  lemma FailoverTakesEffect(s: State, vm: Name, saved: bool)
    requires Inv(s) && !vm.Other?
    ensures |s.routes| == 4
    ensures var (t, outcome) := Failover(s, vm, false, false, saved);
            var source := TakenOver(s, vm);
            && |t.routes| == 4 && t.breaker
            && (var r := t.routes[Place(vm)];
                && r.virtualModel == vm && IsFailover(r) && r.healthy && r.latencyMs == s.routes[Place(vm)].latencyMs
                && r.targetModel == source.targetModel && r.backendUrl == source.backendUrl
                && r.backendType == "failover:" + source.backendType
                && Depth(r.backendType) == 1 + Depth(source.backendType)
                && outcome == Active(r.targetModel))
            && (forall i :: 0 <= i < 4 && i != Place(vm) ==>
                  t.routes[i] == s.routes[i].(healthy := true))
            && (saved ==> t.file == Written(true, FailoverRoutes(t.routes)))
  {
    TakesOver(s, vm);
    NameAt(s.routes, vm);
    FailoverDeepens(TakenOver(s, vm).backendType);
    PrefixStays(TakenOver(s, vm).backendType);
    hide Inv, RoutesOk, FallbackRoute, TakenOver, Depth, FailoverRoutes;
  }

  /** And the next probe, whatever it finds, lists vm among the failed-over models and leaves the breaker
      tripped. */
  lemma FailoverIsProbed(s: State, vm: Name, saved: bool, ok: bool, latency: real, saved': bool)
    requires Inv(s) && !vm.Other?
    ensures var t := Failover(s, vm, false, false, saved).0;
            vm in VirtualModels(FailoverRoutes(t.routes)) && Probe(t, ok, latency, saved').breaker
  {
    FailoverTakesEffect(s, vm, saved);
    hide Inv, Failover, TakenOver, IsFailover;
    var t := Failover(s, vm, false, false, saved).0;
    FailoverRoutesMeans(t.routes);
    assert t.routes[Place(vm)] in t.routes;
    var i :| 0 <= i < |FailoverRoutes(t.routes)| && FailoverRoutes(t.routes)[i] == t.routes[Place(vm)];
    assert VirtualModels(FailoverRoutes(t.routes))[i] == vm;
  }

  /** A refused, simulated or unknown failover changes nothing. */
  lemma OtherFailoversChangeNothing(s: State, vm: Name, simulate: bool, refused: bool, saved: bool)
    requires vm.Other? || refused || simulate
    ensures var (t, outcome) := Failover(s, vm, simulate, refused, saved);
            && t == s
            && (vm.Other? ==> outcome == UnknownModel)
            && (!vm.Other? && refused ==> outcome == CapabilityRefused)
            && (!vm.Other? && !refused ==> outcome.Simulated?)
  {
  }

  /** A probe marks every route with its answer, and a failed one with no latency, and leaves all else of the
      routes; the breaker is tripped exactly when the probe failed or some route is failed over. */
  lemma ProbeMeans(s: State, ok: bool, latency: real, saved: bool)
    ensures var t := Probe(s, ok, latency, saved);
            && |t.routes| == |s.routes|
            && (forall i :: 0 <= i < |t.routes| ==>
                  t.routes[i] == s.routes[i].(healthy := ok, latencyMs := if ok then latency else 0.0))
            && (t.breaker <==> !ok || exists r :: r in s.routes && "failover:" <= r.backendType)
            && (saved ==> t.file == Written(t.breaker, FailoverRoutes(t.routes)))
            && (!saved ==> t.file == s.file)
  {
    FailoverRoutesMeans(s.routes);
    if FailoverRoutes(s.routes) != [] {
      assert FailoverRoutes(s.routes)[0] in s.routes;
    }
  }

  // ----- only a reset restores

  /** The state file holds the current state; on a first start there is none yet. */
  predicate Synced(s: State) {
    || s.file == Written(s.breaker, FailoverRoutes(s.routes))
    || (s.file == Missing && s == Open(Missing))
  }

  predicate Saves(op: Op) {
    match op
    case ProbeOp(_, _, saved) => saved
    case FailoverOp(_, _, _, saved) => saved
    case ResetOp(saved) => saved
    case ReopenOp(read) => read
  }

  lemma ReopenStaysSynced(s: State)
    requires Inv(s) && Synced(s)
    ensures Synced(Open(s.file))
    ensures forall i :: 0 <= i < 4 && IsFailover(s.routes[i]) ==> Open(s.file).routes[i] == s.routes[i]
  {
    RoutesAreDistinct(s.routes);
    DefaultNames();
    if s.file.Written? {
      SaveThenLoad(s);
      hide DefaultRoutes, RoutesOk, FileOk, IsFailover;
      var routes := Open(s.file).routes;
      forall i | 0 <= i < 4
        ensures IsFailover(routes[i]) <==> IsFailover(s.routes[i])
      {
        DefaultOk(DefaultRoutes()[i]);
      }
      SameFailovers(s.routes, routes);
    }
  }

  lemma {:induction false} SameFailovers(a: seq<Route>, b: seq<Route>)
    requires |a| == |b|
    requires forall i :: 0 <= i < |a| ==> (IsFailover(a[i]) <==> IsFailover(b[i])) && (IsFailover(a[i]) ==> a[i] == b[i])
    ensures FailoverRoutes(a) == FailoverRoutes(b)
  {
    if a != [] {
      SameFailovers(a[1..], b[1..]);
    }
  }

  lemma OpStaysSynced(s: State, op: Op)
    requires Inv(s) && Synced(s) && Saves(op)
    ensures Synced(Apply(s, op))
  {
    if op.ReopenOp? {
      ReopenStaysSynced(s);
    }
    hide Inv, DefaultRoutes, FallbackRoute, Rerouted, WithHealth, FailoverRoutes, Open;
  }

  /** As long as the state file can be written and read, a failed-over route stays failed over through
      probes, simulations, refusals, other failovers and restarts: only a reset restores it. */
  lemma OnlyResetRestores(s: State, op: Op, i: nat)
    requires Inv(s) && Synced(s) && Saves(op) && !op.ResetOp?
    requires i < 4 && IsFailover(s.routes[i])
    ensures Synced(Apply(s, op)) && i < |Apply(s, op).routes| && IsFailover(Apply(s, op).routes[i])
    ensures !(op.FailoverOp? && op.vm == s.routes[i].virtualModel) ==>
              var r := Apply(s, op).routes[i];
              r == s.routes[i].(healthy := r.healthy, latencyMs := r.latencyMs)
  {
    OpStaysSynced(s, op);
    RoutesAreDistinct(s.routes);
    if op.ReopenOp? {
      ReopenStaysSynced(s);
    }
    hide Inv, Synced, DefaultRoutes, FallbackRoute, FailoverRoutes, Open;
    if op.FailoverOp? {
      PrefixStays(FallbackRouteType(op.vm, s.routes));
    }
  }

  /** Over every run of such operations: what is failed over once stays failed over. */
  lemma {:induction false} OnlyResetEverRestores(s: State, ops: seq<Op>, i: nat)
    requires Inv(s) && Synced(s) && i < 4 && |s.routes| == 4 && IsFailover(s.routes[i])
    requires forall op :: op in ops ==> Saves(op) && !op.ResetOp?
    ensures var t := ApplyAll(s, ops); Synced(t) && i < |t.routes| && IsFailover(t.routes[i])
    decreases |ops|
  {
    if ops != [] {
      ApplyKeepsInv(s, ops[0]);
      RoutesAreDistinct(Apply(s, ops[0]).routes);
      OnlyResetRestores(s, ops[0], i);
      hide Inv, Synced, Apply, IsFailover, Saves;
      OnlyResetEverRestores(Apply(s, ops[0]), ops[1..], i);
    }
  }

  function FallbackRouteType(vm: Name, routes: seq<Route>): string {
    if vm.Other? then "" else FallbackRoute(vm, routes).backendType
  }

  lemma PrefixStays(backendType: string)
    ensures FAILOVER_PREFIX <= FAILOVER_PREFIX + backendType
  {
  }

  lemma {:induction false} SavedOrFinds(saved: seq<Route>, d: Route, r: Route)
    requires r in saved && IsFailover(r) && r.virtualModel == d.virtualModel
    ensures IsFailover(SavedOr(saved, d))
  {
    var n := |saved| - 1;
    if r != saved[n] {
      assert r in saved[..n];
      SavedOrFinds(saved[..n], d, r);
    }
  }

  /** The state file lists a route of the virtual model. */
  predicate Lists(f: StateFile, vm: Name) {
    f.Written? && exists r :: r in f.routes && r.virtualModel == vm
  }

  lemma RestoredIffListed(f: StateFile, i: nat)
    requires FileOk(f) && i < 4
    ensures |Open(f).routes| == |DefaultRoutes()| == 4
    ensures IsFailover(Open(f).routes[i]) <==> Lists(f, DefaultRoutes()[i].virtualModel)
  {
    var d := DefaultRoutes()[i];
    DefaultOk(d);
    hide DefaultRoutes, IsFailover, RouteOk;
    DefaultNames();
    if f.Written? {
      SavedOrMeans(f.routes, d);
      if Lists(f, d.virtualModel) {
        var r :| r in f.routes && r.virtualModel == d.virtualModel;
        SavedOrFinds(f.routes, d, r);
      }
    }
  }

  /** Without any assumption on the state file: an operation leaves a failed-over route failed over
      exactly when it is neither a reset nor a restart that finds no such route in the file. A reset
      restores every route and closes the breaker. */
  lemma StaysFailedOverIff(s: State, op: Op, i: nat)
    requires Inv(s) && i < 4 && |s.routes| == 4 && IsFailover(s.routes[i])
    ensures |Apply(s, op).routes| == 4
    ensures IsFailover(Apply(s, op).routes[i])
       <==> !op.ResetOp? && (op.ReopenOp? ==> op.read && Lists(s.file, s.routes[i].virtualModel))
    ensures op.ResetOp? ==>
              var t := Apply(s, op); t.routes == DefaultRoutes() && FailoverRoutes(t.routes) == [] && !t.breaker
  {
    DefaultNames();
    DefaultOk(DefaultRoutes()[i]);
    RestoredIffListed(s.file, i);
    assert VirtualModels(s.routes)[i] == s.routes[i].virtualModel;
    assert VirtualModels(DefaultRoutes())[i] == DefaultRoutes()[i].virtualModel;
    hide Inv, DefaultRoutes, FallbackRoute, FailoverRoutes, Open, Lists;
    if op.FailoverOp? {
      PrefixStays(FallbackRouteType(op.vm, s.routes));
    } else if op.ResetOp? {
      ResetRestores(s, op.saved);
    }
  }

  lemma ResetRestores(s: State, saved: bool)
    ensures Reset(s, saved).routes == DefaultRoutes() && !Reset(s, saved).breaker
    ensures FailoverRoutes(Reset(s, saved).routes) == []
  {
    DefaultsOk();
  }
}
