// The servers of the second block driver: takeover, emergency mode and the writes of the
// administrator. Every step below is one section under servers_mutex; the start of the
// device is taken as one step.

module Takeover {
  import opened Options

  const ALT_SERVERS_MAX: nat := 4
  const SRTT_UNIT: nat := 1024
  const SRTT_BETA: nat := 990
  const SRTT_BETA_COMP: nat := 10
  const SRTT_BETA_BASE: nat := 1000

  datatype Address = Address(ip: nat, port: nat)

  // A slot for a server; it is configured when it has a socket.
  datatype Server = Server(sock: bool, address: Address, min: nat, max: nat, srtt: nat)

  const EMPTY := Server(false, Address(0, 0), 0, 0, 0)

  datatype Command = GetBlock | GetSize | GetServers

  datatype State = State(
    rttMax: nat,
    servers: seq<Server>,
    emergList: seq<Address>,
    running: bool,
    emergency: bool,
    active: Option<nat>,
    toPercent: int,
    toJiffies: nat)

  // Search among the servers -------------------------------------------------------------

  predicate IsNext(s: Server, i: nat, active: Option<nat>) {
    s.sock && active != Some(i)
  }

  // The first configured server that is not active, or the number of servers
  function NextServer(servers: seq<Server>, active: Option<nat>, from: nat): (i: nat)
    requires from <= |servers|
    ensures from <= i <= |servers|
    ensures i < |servers| ==> IsNext(servers[i], i, active)
    ensures forall j :: from <= j < i ==> !IsNext(servers[j], j, active)
    decreases |servers| - from
  {
    if from == |servers| || IsNext(servers[from], from, active) then from
    else NextServer(servers, active, from + 1)
  }

  // Only servers with an accepted time below the limit are compared.
  predicate Eligible(s: Server, rttMax: nat) {
    s.sock && s.min < rttMax && s.srtt < rttMax * SRTT_UNIT
  }

  function Bound(servers: seq<Server>, best: Option<nat>, rttMax: nat): nat
    requires best.Some? ==> best.value < |servers|
  {
    if best.Some? then servers[best.value].srtt else rttMax * SRTT_UNIT
  }

  // The fastest of the first n servers
  function Fastest(servers: seq<Server>, n: nat, rttMax: nat): (best: Option<nat>)
    requires n <= |servers|
    ensures best.Some? ==> best.value < n && Eligible(servers[best.value], rttMax)
  {
    if n == 0 then None
    else
      var best := Fastest(servers, n - 1, rttMax);
      var s := servers[n - 1];
      if s.sock && s.srtt < Bound(servers, best, rttMax) && s.min < rttMax then Some(n - 1) else best
  }

  // It has the smallest time of all eligible ones, and is the first of those.
  lemma {:induction false} FastestIsMinimum(servers: seq<Server>, n: nat, rttMax: nat)
    requires n <= |servers|
    ensures var best := Fastest(servers, n, rttMax);
      && (best.None? <==> forall i :: 0 <= i < n ==> !Eligible(servers[i], rttMax))
      && (best.Some? ==>
           && (forall i :: 0 <= i < n && Eligible(servers[i], rttMax) ==> servers[best.value].srtt <= servers[i].srtt)
           && (forall i :: 0 <= i < best.value && Eligible(servers[i], rttMax) ==>
                servers[best.value].srtt < servers[i].srtt))
  {
    if n > 0 {
      FastestIsMinimum(servers, n - 1, rttMax);
    }
  }

  // Adding and removing -------------------------------------------------------------------

  // add_server; ok says whether the socket and its receiver could be set up.
  function Add(servers: seq<Server>, i: nat, address: Address, ok: bool, rttMax: nat): (r: seq<Server>)
    requires i < |servers|
    ensures |r| == |servers|
  {
    if address.ip == 0 || address.port == 0 then servers
    else if ok then servers[i := Server(true, address, rttMax, 0, 0)]
    else servers[i := EMPTY]
  }

  predicate Known(servers: seq<Server>, address: Address) {
    exists i :: 0 <= i < |servers| && servers[i].sock && servers[i].address == address
  }

  function FreeSlot(servers: seq<Server>, from: nat): (i: nat)
    requires from <= |servers|
    ensures from <= i <= |servers| && (i < |servers| ==> !servers[i].sock)
    ensures forall j :: from <= j < i ==> servers[j].sock
    decreases |servers| - from
  {
    if from == |servers| || !servers[from].sock then from else FreeSlot(servers, from + 1)
  }

  function TryAdd(servers: seq<Server>, address: Address, ok: bool, rttMax: nat): (r: seq<Server>)
    ensures |r| == |servers|
  {
    if Known(servers, address) then servers
    else
      var i := FreeSlot(servers, 0);
      if i == |servers| then servers else Add(servers, i, address, ok, rttMax)
  }

  // Trying the first n addresses of a list; oks are the outcomes.
  function TryAll(servers: seq<Server>, list: seq<Address>, oks: seq<bool>, n: nat, rttMax: nat): (r: seq<Server>)
    requires n <= |list| <= |oks|
    ensures |r| == |servers|
  {
    if n == 0 then servers
    else TryAdd(TryAll(servers, list, oks, n - 1, rttMax), list[n - 1], oks[n - 1], rttMax)
  }

  // Servers are only added: a configured one is left alone.
  lemma {:induction false} TryAllKeeps(servers: seq<Server>, list: seq<Address>, oks: seq<bool>, n: nat, rttMax: nat)
    requires n <= |list| <= |oks|
    ensures var r := TryAll(servers, list, oks, n, rttMax);
      forall i :: 0 <= i < |servers| && servers[i].sock ==> r[i] == servers[i]
  {
    if n > 0 {
      TryAllKeeps(servers, list, oks, n - 1, rttMax);
    }
  }

  // Times -----------------------------------------------------------------------------------

  function UpdateRtt(s: Server, sample: nat, cmd: Command, rttMax: nat): Server {
    var rtt := if sample == 0 then 1 else sample;
    if rtt > rttMax then s
    else
      var t := s.(min := if rtt < s.min then rtt else s.min, max := if rtt > s.max then rtt else s.max);
      if t.srtt == 0 || !cmd.GetBlock? then t.(srtt := rtt * SRTT_UNIT)
      else t.(srtt := (SRTT_BETA * t.srtt + SRTT_BETA_COMP * rtt * SRTT_UNIT) / SRTT_BETA_BASE)
  }

  // A configured server has had no accepted time yet, or its smoothed time lies between its
  // smallest and its largest one.
  predicate TimesFit(s: Server, rttMax: nat) {
    if !s.sock then s == EMPTY
    else
      || (s.srtt == 0 && s.min == rttMax && s.max == 0)
      || (1 <= s.min <= s.max <= rttMax && s.min * SRTT_UNIT <= s.srtt <= s.max * SRTT_UNIT)
  }

  lemma UpdateKeepsTimes(s: Server, sample: nat, cmd: Command, rttMax: nat)
    requires TimesFit(s, rttMax) && s.sock && rttMax > 0
    ensures TimesFit(UpdateRtt(s, sample, cmd, rttMax), rttMax)
    ensures sample <= rttMax ==> UpdateRtt(s, sample, cmd, rttMax).srtt > 0
  {
  }

  // Steps -----------------------------------------------------------------------------------

  datatype Step =
    | ActivateFastest(stalled: bool, oks: seq<bool>)
    | DelServerWork(i: nat)
    | Start(i: nat)
    | Stop
    | StoreSock(i: nat, address: Address, ok: bool)
    | StoreActive(i: nat)
    | Reply(i: nat, num: nat, list: seq<Address>, oks: seq<bool>)
    | Rtt(i: nat, sample: nat, cmd: Command)

  predicate Shape(s: State) {
    |s.servers| == |s.emergList| == ALT_SERVERS_MAX && (s.active.Some? ==> s.active.value < ALT_SERVERS_MAX)
  }

  function StartEmergency(s: State, oks: seq<bool>): State
    requires Shape(s) && |oks| == ALT_SERVERS_MAX
  {
    if s.emergency then s
    else s.(emergency := true, servers := TryAll(s.servers, s.emergList, oks, |s.emergList|, s.rttMax))
  }

  // The thresholds of the takeover, on times in ticks; one that is zero is not used.
  predicate WorthSwitching(srtt: int, min: int, toPercent: int, toJiffies: nat) {
    && (toPercent != 0 || toJiffies != 0)
    && (toPercent != 0 ==> 100 * (srtt - min) >= toPercent * srtt)
    && (toJiffies != 0 ==> min + toJiffies <= srtt)
  }

  function SwitchToFastest(s: State): State
    requires Shape(s) && s.active.Some?
  {
    var best := Fastest(s.servers, |s.servers|, s.rttMax);
    if best.Some? && best != s.active
       && WorthSwitching(s.servers[s.active.value].srtt / SRTT_UNIT, s.servers[best.value].srtt / SRTT_UNIT,
                         s.toPercent, s.toJiffies)
    then s.(active := best)
    else s
  }

  function ActivateFastestStep(s: State, stalled: bool, oks: seq<bool>): State
    requires Shape(s) && |oks| == ALT_SERVERS_MAX
  {
    if s.active.None? then s
    else if stalled then
      var next := NextServer(s.servers, s.active, 0);
      if next == |s.servers| then StartEmergency(s, oks)
      else SwitchToFastest(s.(active := Some(next), servers := s.servers[s.active.value := EMPTY]))
    else SwitchToFastest(s)
  }

  function AddressesOf(servers: seq<Server>): (r: seq<Address>)
    ensures |r| == |servers| && forall k :: 0 <= k < |servers| ==> r[k] == servers[k].address
  {
    seq(|servers|, k requires 0 <= k < |servers| => servers[k].address)
  }

  // The new emergency list: the server that replied, then the servers it knows.
  function Entry(first: Address, list: seq<Address>, num: nat, k: nat): Address
    requires k <= |list|
  {
    if k == 0 then first else if k <= num then list[k - 1] else Address(0, 0)
  }

  function EmergencyList(first: Address, list: seq<Address>, num: nat): (r: seq<Address>)
    ensures |r| == |list| + 1 && forall k :: 0 <= k <= |list| ==> r[k] == Entry(first, list, num, k)
  {
    seq(|list| + 1, k requires 0 <= k <= |list| => Entry(first, list, num, k))
  }

  predicate Enabled(s: State, step: Step) {
    && Shape(s)
    && match step
       case ActivateFastest(stalled, oks) => |oks| == ALT_SERVERS_MAX
       case DelServerWork(i) => i < ALT_SERVERS_MAX
       // a server has told the capacity of the device
       case Start(i) => !s.running && i < ALT_SERVERS_MAX && s.servers[i].sock
       case Stop => s.running
       case StoreSock(i, address, ok) => i < ALT_SERVERS_MAX
       case StoreActive(i) => i < ALT_SERVERS_MAX
       // the receiver of a server runs only while it has a socket
       case Reply(i, num, list, oks) =>
         i < ALT_SERVERS_MAX && s.servers[i].sock && |list| == |oks| == ALT_SERVERS_MAX - 1
       case Rtt(i, sample, cmd) => i < ALT_SERVERS_MAX && s.servers[i].sock
  }

  function Apply(s: State, step: Step): State
    requires Enabled(s, step)
  {
    match step
    case ActivateFastest(stalled, oks) => ActivateFastestStep(s, stalled, oks)
    case DelServerWork(i) =>
      if !s.servers[i].sock || s.active == Some(i) then s else s.(servers := s.servers[i := EMPTY])
    case Start(i) =>
      s.(active := Some(i), running := true,
         emergList := AddressesOf(s.servers))
    case Stop => s.(running := false, active := None)
    case StoreSock(i, address, ok) =>
      if s.running && s.active == Some(i) then s
      else s.(servers := Add(s.servers[i := EMPTY], i, address, ok, s.rttMax))
    case StoreActive(i) =>
      if !s.running || !s.servers[i].sock || s.active == Some(i) then s else s.(active := Some(i))
    case Reply(i, num, list, oks) =>
      var t := if s.emergency then s.(active := Some(i), emergency := false) else s;
      var n := if num < |list| then num else |list|;
      t.(emergList := EmergencyList(s.servers[i].address, list, num),
         servers := TryAll(s.servers, list, oks, n, s.rttMax))
    case Rtt(i, sample, cmd) =>
      s.(servers := s.servers[i := UpdateRtt(s.servers[i], sample, cmd, s.rttMax)])
  }

  function Next(s: State, step: Step): State {
    if Enabled(s, step) then Apply(s, step) else s
  }

  function Run(s: State, steps: seq<Step>): State
    decreases |steps|
  {
    if steps == [] then s else Run(Next(s, steps[0]), steps[1..])
  }

  function Initial(rttMax: nat, toPercent: int, toJiffies: nat): State {
    State(rttMax, [EMPTY, EMPTY, EMPTY, EMPTY], [Address(0, 0), Address(0, 0), Address(0, 0), Address(0, 0)],
          false, false, None, toPercent, toJiffies)
  }

  // Invariant ---------------------------------------------------------------------------------

  predicate AllFit(servers: seq<Server>, rttMax: nat) {
    forall i :: 0 <= i < |servers| ==> TimesFit(servers[i], rttMax)
  }

  predicate Inv(s: State) {
    && Shape(s) && s.rttMax > 0 && AllFit(s.servers, s.rttMax)
    && (s.running ==> s.active.Some? && s.servers[s.active.value].sock)
  }

  lemma AddFits(servers: seq<Server>, i: nat, address: Address, ok: bool, rttMax: nat)
    requires AllFit(servers, rttMax) && i < |servers|
    ensures AllFit(Add(servers, i, address, ok, rttMax), rttMax)
  {
  }

  lemma {:induction false} TryAllFits(servers: seq<Server>, list: seq<Address>, oks: seq<bool>, n: nat, rttMax: nat)
    requires AllFit(servers, rttMax) && n <= |list| <= |oks|
    ensures AllFit(TryAll(servers, list, oks, n, rttMax), rttMax)
  {
    if n > 0 {
      TryAllFits(servers, list, oks, n - 1, rttMax);
      var r := TryAll(servers, list, oks, n - 1, rttMax);
      if !Known(r, list[n - 1]) && FreeSlot(r, 0) < |r| {
        AddFits(r, FreeSlot(r, 0), list[n - 1], oks[n - 1], rttMax);
      }
    }
  }

  lemma SwitchInv(s: State)
    requires Inv(s) && s.active.Some?
    ensures Inv(SwitchToFastest(s))
  {
  }

  lemma ActivateInv(s: State, stalled: bool, oks: seq<bool>)
    requires Inv(s) && |oks| == ALT_SERVERS_MAX
    ensures Inv(ActivateFastestStep(s, stalled, oks))
  {
    if s.active.Some? {
      if stalled {
        var next := NextServer(s.servers, s.active, 0);
        if next == |s.servers| {
          TryAllFits(s.servers, s.emergList, oks, |s.emergList|, s.rttMax);
          TryAllKeeps(s.servers, s.emergList, oks, |s.emergList|, s.rttMax);
        } else {
          SwitchInv(s.(active := Some(next), servers := s.servers[s.active.value := EMPTY]));
        }
      } else {
        SwitchInv(s);
      }
    }
  }

  lemma ReplyInv(s: State, i: nat, num: nat, list: seq<Address>, oks: seq<bool>)
    requires Inv(s) && Enabled(s, Reply(i, num, list, oks))
    ensures Inv(Apply(s, Reply(i, num, list, oks)))
  {
    var n := if num < |list| then num else |list|;
    TryAllFits(s.servers, list, oks, n, s.rttMax);
    TryAllKeeps(s.servers, list, oks, n, s.rttMax);
  }

  lemma StepInv(s: State, step: Step)
    requires Inv(s)
    ensures Inv(Next(s, step))
  {
    if Enabled(s, step) {
      match step
      case ActivateFastest(stalled, oks) => ActivateInv(s, stalled, oks);
      case DelServerWork(i) =>
      case Start(i) =>
      case Stop =>
      case StoreSock(i, address, ok) => AddFits(s.servers[i := EMPTY], i, address, ok, s.rttMax);
      case StoreActive(i) =>
      case Reply(i, num, list, oks) => ReplyInv(s, i, num, list, oks);
      case Rtt(i, sample, cmd) => UpdateKeepsTimes(s.servers[i], sample, cmd, s.rttMax);
    }
  }

  lemma {:induction false} RunInv(s: State, steps: seq<Step>)
    requires Inv(s)
    ensures Inv(Run(s, steps))
    decreases |steps|
  {
    if steps != [] {
      StepInv(s, steps[0]);
      RunInv(Next(s, steps[0]), steps[1..]);
    }
  }

  // In every run: while the device runs its active server is a configured one, and the times
  // of every configured server that has answered stay in order.
  lemma RunIsSafe(rttMax: nat, toPercent: int, toJiffies: nat, steps: seq<Step>, i: nat)
    requires rttMax > 0 && i < ALT_SERVERS_MAX
    ensures var s := Run(Initial(rttMax, toPercent, toJiffies), steps);
      && Shape(s)
      && (s.running ==> s.active.Some? && s.servers[s.active.value].sock)
      && (s.servers[i].sock && s.servers[i].srtt > 0 ==>
            var v := s.servers[i]; v.min * SRTT_UNIT <= v.srtt <= v.max * SRTT_UNIT)
      && (!s.servers[i].sock ==> s.servers[i] == EMPTY)
  {
    var s := Initial(rttMax, toPercent, toJiffies);
    assert Inv(s);
    RunInv(s, steps);
    assert TimesFit(Run(s, steps).servers[i], Run(s, steps).rttMax);
  }

  lemma RunCons(s: State, step: Step, rest: seq<Step>)
    ensures Run(s, [step] + rest) == Run(Next(s, step), rest)
  {
    assert ([step] + rest)[1..] == rest;
  }

  lemma RunTwo(s: State, step: Step, step': Step, rest: seq<Step>)
    ensures Run(s, [step] + ([step'] + rest)) == Run(Next(Next(s, step), step'), rest)
  {
    RunCons(s, step, [step'] + rest);
    RunCons(Next(s, step), step', rest);
  }

  // A device that does not run may have an active server that is gone: the emergency mode
  // outlives the stop, the next reply makes its sender active, and then the administrator
  // removes it.
  lemma StoppedActiveMayBeGone() returns (steps: seq<Step>)
    ensures var s := Run(Initial(25, 0, 0), steps);
      !s.running && s.active == Some(0) && Shape(s) && !s.servers[0].sock
  {
    var nobody, oks := Address(0, 0), [true, true, true];
    var add, start := StoreSock(0, Address(1, 1), true), Start(0);
    var stall, reply := ActivateFastest(true, oks + [true]), Reply(0, 0, [nobody, nobody, nobody], oks);
    var remove := StoreSock(0, nobody, true);
    var s0 := Initial(25, 0, 0);
    var s2 := Next(Next(s0, add), start);
    var s4 := Next(Next(s2, stall), Stop);
    AloneInEmergency(s2, oks + [true]);
    LostAfterReply(s4, 0, reply, remove);
    var last := [reply] + ([remove] + []);
    RunTwo(s4, reply, remove, []);
    RunTwo(s2, stall, Stop, last);
    RunTwo(s0, add, start, [stall] + ([Stop] + last));
    steps := [add] + ([start] + ([stall] + ([Stop] + last)));
  }

  lemma LostAfterReply(s: State, i: nat, reply: Step, remove: Step)
    requires Shape(s) && s.emergency && !s.running && i < ALT_SERVERS_MAX && s.servers[i].sock
    requires reply.Reply? && reply.i == i && reply.num == 0 && Enabled(s, reply)
    requires remove.StoreSock? && remove.i == i && remove.address.ip == 0
    ensures var t := Next(Next(s, reply), remove);
      !t.running && t.active == Some(i) && Shape(t) && !t.servers[i].sock
  {
    assert Next(s, reply).servers == s.servers;
  }

  // With the active server alone, a stall starts the emergency mode and keeps the server.
  lemma AloneInEmergency(s: State, oks: seq<bool>)
    requires Inv(s) && |oks| == ALT_SERVERS_MAX && s.active.Some? && s.servers[s.active.value].sock
    requires forall i :: 0 <= i < |s.servers| && s.servers[i].sock ==> s.active == Some(i)
    ensures var t := Apply(s, ActivateFastest(true, oks));
      t.emergency && t.active == s.active && t.servers[s.active.value] == s.servers[s.active.value]
      && t.running == s.running && Shape(t)
  {
    TryAllKeeps(s.servers, s.emergList, oks, |s.emergList|, s.rttMax);
  }

  predicate ActiveConfigured(s: State) {
    Shape(s) && (s.active.Some? ==> s.servers[s.active.value].sock)
  }

  // The administrator removes the active server of a stopped device, or puts one in its
  // place that cannot be reached: the one case that the test for a running device lets by.
  predicate RemovesActive(s: State, step: Step) {
    && step.StoreSock? && !s.running && s.active == Some(step.i)
    && (step.address.ip == 0 || step.address.port == 0 || !step.ok)
  }

  // An active server is lost in exactly this way.
  lemma ActiveLostIff(s: State, step: Step)
    requires Inv(s) && ActiveConfigured(s) && Enabled(s, step)
    ensures ActiveConfigured(Apply(s, step)) <==> !RemovesActive(s, step)
  {
    StepInv(s, step);
    match step
    case ActivateFastest(stalled, oks) =>
      TryAllKeeps(s.servers, s.emergList, oks, |s.emergList|, s.rttMax);
    case Reply(i, num, list, oks) =>
      TryAllKeeps(s.servers, list, oks, if num < |list| then num else |list|, s.rttMax);
    case _ =>
  }

  predicate AlwaysConfigured(s: State, steps: seq<Step>)
    decreases |steps|
  {
    ActiveConfigured(s) && (steps == [] || AlwaysConfigured(Next(s, steps[0]), steps[1..]))
  }

  predicate SometimeRemovesActive(s: State, steps: seq<Step>)
    decreases |steps|
  {
    steps != [] && ((Enabled(s, steps[0]) && RemovesActive(s, steps[0]))
                    || SometimeRemovesActive(Next(s, steps[0]), steps[1..]))
  }

  // Over whole runs, stopped devices included.
  lemma {:induction false} ActiveLostInRunIff(s: State, steps: seq<Step>)
    requires Inv(s) && ActiveConfigured(s)
    ensures AlwaysConfigured(s, steps) <==> !SometimeRemovesActive(s, steps)
    decreases |steps|
  {
    if steps != [] {
      var next := Next(s, steps[0]);
      StepInv(s, steps[0]);
      if Enabled(s, steps[0]) {
        ActiveLostIff(s, steps[0]);
      }
      if ActiveConfigured(next) {
        ActiveLostInRunIff(next, steps[1..]);
      } else {
        assert !AlwaysConfigured(next, steps[1..]);
      }
    }
  }

  // A takeover without a stall happens exactly when the thresholds say so, and goes to the
  // fastest server; whatever the percentage, negative ones included, it never goes to a
  // slower one.
  lemma SwitchIff(s: State, oks: seq<bool>)
    requires Inv(s) && s.active.Some? && |oks| == ALT_SERVERS_MAX
    ensures var t := ActivateFastestStep(s, false, oks);
      && (t.active != s.active <==>
            exists i :: 0 <= i < |s.servers| && Overtakes(s, i))
      && (t.active != s.active ==>
            && t.active.Some? && Overtakes(s, t.active.value)
            && s.servers[t.active.value].srtt / SRTT_UNIT <= s.servers[s.active.value].srtt / SRTT_UNIT)
      && t == s.(active := t.active)
  {
    FastestIsMinimum(s.servers, |s.servers|, s.rttMax);
    var best := Fastest(s.servers, |s.servers|, s.rttMax);
    forall i | 0 <= i < |s.servers| && Overtakes(s, i) ensures best == Some(i) {
      assert Eligible(s.servers[i], s.rttMax);
    }
    if best.Some? {
      var srtt, min := s.servers[s.active.value].srtt / SRTT_UNIT, s.servers[best.value].srtt / SRTT_UNIT;
      if best != s.active && WorthSwitching(srtt, min, s.toPercent, s.toJiffies) {
        NotSlower(s, best.value);
        assert Overtakes(s, best.value);
      }
    }
  }

  // The i-th server is the first of the fastest ones, is not active, and is fast enough.
  predicate Overtakes(s: State, i: nat)
    requires Shape(s) && s.active.Some? && i < |s.servers|
  {
    && Some(i) != s.active && Eligible(s.servers[i], s.rttMax)
    && (forall j :: 0 <= j < |s.servers| && Eligible(s.servers[j], s.rttMax) ==>
          s.servers[i].srtt <= s.servers[j].srtt && (j < i ==> s.servers[i].srtt < s.servers[j].srtt))
    && WorthSwitching(s.servers[s.active.value].srtt / SRTT_UNIT, s.servers[i].srtt / SRTT_UNIT,
                      s.toPercent, s.toJiffies)
  }

  // An active server without a time is only left for one that has none either; one with a
  // time takes part in the comparison, or has reached the limit.
  lemma NotSlower(s: State, i: nat)
    requires Inv(s) && s.active.Some? && i < |s.servers| && Eligible(s.servers[i], s.rttMax)
    requires Eligible(s.servers[s.active.value], s.rttMax) ==> s.servers[i].srtt <= s.servers[s.active.value].srtt
    requires WorthSwitching(s.servers[s.active.value].srtt / SRTT_UNIT, s.servers[i].srtt / SRTT_UNIT,
                            s.toPercent, s.toJiffies)
    ensures s.servers[i].srtt / SRTT_UNIT <= s.servers[s.active.value].srtt / SRTT_UNIT
  {
    var a := s.servers[s.active.value];
    assert TimesFit(a, s.rttMax);
    if a.srtt > 0 {
      assert s.servers[i].srtt <= a.srtt;
    } else {
      assert s.toPercent * 0 == 0;
    }
  }

  // The emergency mode starts only when the active server is stalled and no other server is
  // configured.
  lemma EmergencyIff(s: State, stalled: bool, oks: seq<bool>)
    requires Inv(s) && |oks| == ALT_SERVERS_MAX && !s.emergency
    ensures ActivateFastestStep(s, stalled, oks).emergency <==>
      && s.active.Some? && stalled
      && forall i :: 0 <= i < |s.servers| && s.servers[i].sock ==> s.active == Some(i)
  {
  }
}

// The device itself: its methods are the steps above.
module TakeoverDevice {
  import opened Options
  import opened Takeover

  class Device {
    const rttMax: nat
    const servers: array<Server>
    const emergList: array<Address>
    var running: bool
    var emergency: bool
    var activeServer: Option<nat>
    var toPercent: int
    var toJiffies: nat

    ghost function View(): State
      reads this, servers, emergList
    {
      State(rttMax, servers[..], emergList[..], running, emergency, activeServer, toPercent, toJiffies)
    }

    ghost predicate Valid()
      reads this, servers, emergList
    {
      Inv(View())
    }

    // hz is the number of timer ticks per second.
    constructor (hz: nat, percent: int, jiffies: nat)
      requires hz >= 4
      ensures Valid() && View() == Initial(hz / 4, percent, jiffies)
      ensures fresh(servers) && fresh(emergList)
    {
      rttMax := hz / 4;
      servers := new Server[ALT_SERVERS_MAX](_ => EMPTY);
      emergList := new Address[ALT_SERVERS_MAX](_ => Address(0, 0));
      running, emergency, activeServer, toPercent, toJiffies := false, false, None, percent, jiffies;
      new;
      assert servers[..] == [EMPTY, EMPTY, EMPTY, EMPTY];
      assert emergList[..] == [Address(0, 0), Address(0, 0), Address(0, 0), Address(0, 0)];
    }

    method FindNext() returns (i: nat)
      requires servers.Length == ALT_SERVERS_MAX
      ensures i == NextServer(servers[..], activeServer, 0)
    {
      i := 0;
      while i < servers.Length
        invariant 0 <= i <= servers.Length
        invariant NextServer(servers[..], activeServer, 0) == NextServer(servers[..], activeServer, i)
      {
        if servers[i].sock && activeServer != Some(i) {
          return;
        }
        i := i + 1;
      }
    }

    method FindFastest() returns (best: Option<nat>, min: nat)
      requires servers.Length == ALT_SERVERS_MAX
      ensures best == Fastest(servers[..], servers.Length, rttMax)
      ensures min == Bound(servers[..], best, rttMax) / SRTT_UNIT
    {
      var bound := rttMax * SRTT_UNIT;
      best := None;
      var i := 0;
      while i < servers.Length
        invariant 0 <= i <= servers.Length
        invariant best == Fastest(servers[..], i, rttMax) && bound == Bound(servers[..], best, rttMax)
      {
        var s := servers[i];
        if s.sock && s.srtt < bound && s.min < rttMax {
          bound := s.srtt;
          best := Some(i);
        }
        i := i + 1;
      }
      min := bound / SRTT_UNIT;
    }

    method AddServer(address: Address, i: nat, ok: bool)
      requires i < servers.Length
      modifies servers
      ensures servers[..] == Add(old(servers[..]), i, address, ok, rttMax)
    {
      if address.ip == 0 || address.port == 0 {
        return;
      }
      if ok {
        servers[i] := Server(true, address, rttMax, 0, 0);
      } else {
        DelServer(i);
      }
    }

    method DelServer(i: nat)
      requires i < servers.Length
      modifies servers
      ensures servers[..] == old(servers[..])[i := EMPTY]
    {
      servers[i] := EMPTY;
    }

    method TryAddServer(address: Address, ok: bool)
      modifies servers
      ensures servers[..] == TryAdd(old(servers[..]), address, ok, rttMax)
    {
      var i := 0;
      while i < servers.Length
        invariant 0 <= i <= servers.Length && servers[..] == old(servers[..])
        invariant forall j :: 0 <= j < i ==> !(servers[j].sock && servers[j].address == address)
      {
        if servers[i].sock && servers[i].address == address {
          assert Known(servers[..], address) by { assert servers[..][i].sock; }
          return;
        }
        i := i + 1;
      }
      i := 0;
      while i < servers.Length
        invariant 0 <= i <= servers.Length && servers[..] == old(servers[..])
        invariant FreeSlot(servers[..], 0) == FreeSlot(servers[..], i)
      {
        if !servers[i].sock {
          break;
        }
        i := i + 1;
      }
      if i < servers.Length {
        AddServer(address, i, ok);
      }
    }

    method BeginEmergency(oks: seq<bool>)
      requires Valid() && |oks| == ALT_SERVERS_MAX
      modifies this`emergency, servers
      ensures View() == StartEmergency(old(View()), oks)
    {
      if emergency {
        return;
      }
      emergency := true;
      var i := 0;
      while i < emergList.Length
        invariant 0 <= i <= emergList.Length == |oks| && emergency
        invariant servers[..] == TryAll(old(servers[..]), emergList[..], oks, i, rttMax)
      {
        TryAddServer(emergList[i], oks[i]);
        i := i + 1;
      }
    }

    // stalled: requests are pending, and the active server has not replied for too long.
    method ActivateFastest(stalled: bool, oks: seq<bool>)
      requires Valid() && |oks| == ALT_SERVERS_MAX
      modifies this`activeServer, this`emergency, servers
      ensures Valid() && View() == Apply(old(View()), Step.ActivateFastest(stalled, oks))
    {
      ActivateInv(View(), stalled, oks);
      if activeServer.None? {
        return;
      }
      if stalled {
        var next := FindNext();
        if next == servers.Length {
          BeginEmergency(oks);
          return;
        }
        var previous := activeServer.value;
        activeServer := Some(next);
        DelServer(previous);
      }
      SwitchServer();
    }

    method SwitchServer()
      requires Shape(View()) && activeServer.Some?
      modifies this`activeServer
      ensures View() == SwitchToFastest(old(View()))
    {
      var srtt: int := servers[activeServer.value].srtt / SRTT_UNIT;
      var best, min := FindFastest();
      if best.None? || best == activeServer {
        return;
      }
      var newServer := false;
      if toPercent != 0 {
        if 100 * (srtt - min) < toPercent * srtt {
          return;
        }
        newServer := true;
      }
      if toJiffies != 0 {
        if min + toJiffies > srtt {
          return;
        }
        newServer := true;
      }
      if newServer {
        activeServer := best;
      }
    }

    method DelServerWork(i: nat)
      requires Valid() && i < ALT_SERVERS_MAX
      modifies servers
      ensures Valid() && View() == Apply(old(View()), Step.DelServerWork(i))
    {
      StepInv(View(), Step.DelServerWork(i));
      if !servers[i].sock || activeServer == Some(i) {
        return;
      }
      DelServer(i);
    }

    // The i-th server is the first configured one that told the capacity.
    method StoreRunning(i: nat)
      requires Valid() && !running && i < ALT_SERVERS_MAX && servers[i].sock
      modifies this`activeServer, this`running, emergList
      ensures Valid() && View() == Apply(old(View()), Step.Start(i))
    {
      StepInv(View(), Step.Start(i));
      activeServer := Some(i);
      var k := 0;
      while k < emergList.Length
        modifies emergList
        invariant 0 <= k <= emergList.Length
        invariant forall j :: 0 <= j < k ==> emergList[j] == servers[j].address
      {
        emergList[k] := servers[k].address;
        k := k + 1;
      }
      assert emergList[..] == AddressesOf(servers[..]);
      running := true;
    }

    method StoreStopped()
      requires Valid() && running
      modifies this`activeServer, this`running
      ensures Valid() && View() == Apply(old(View()), Step.Stop)
    {
      running := false;
      activeServer := None;
    }

    method StoreSock(i: nat, address: Address, ok: bool)
      requires Valid() && i < ALT_SERVERS_MAX
      modifies servers
      ensures Valid() && View() == Apply(old(View()), Step.StoreSock(i, address, ok))
    {
      StepInv(View(), Step.StoreSock(i, address, ok));
      if running && activeServer == Some(i) {
        return;
      }
      assert TimesFit(servers[..][i], rttMax);
      if servers[i].sock {
        DelServer(i);
      }
      assert servers[..] == old(servers[..])[i := EMPTY];
      AddServer(address, i, ok);
    }

    method StoreActive(i: nat)
      requires Valid() && i < ALT_SERVERS_MAX
      modifies this`activeServer
      ensures Valid() && View() == Apply(old(View()), Step.StoreActive(i))
    {
      if !running || !servers[i].sock || activeServer == Some(i) {
        return;
      }
      activeServer := Some(i);
    }

    // The reply to a heartbeat: num servers of the list are known to the i-th one.
    method ReceiveServers(i: nat, num: nat, list: seq<Address>, oks: seq<bool>)
      requires Valid() && Enabled(View(), Step.Reply(i, num, list, oks))
      modifies this`activeServer, this`emergency, servers, emergList
      ensures Valid() && View() == Apply(old(View()), Step.Reply(i, num, list, oks))
    {
      StepInv(View(), Step.Reply(i, num, list, oks));
      if emergency {
        activeServer := Some(i);
        emergency := false;
      }
      RecreateList(servers[i].address, num, list, oks);
    }

    // The emergency list is written anew, and its servers are tried.
    method RecreateList(first: Address, num: nat, list: seq<Address>, oks: seq<bool>)
      requires emergList.Length == ALT_SERVERS_MAX && |list| == |oks| == ALT_SERVERS_MAX - 1
      modifies servers, emergList
      ensures emergList[..] == EmergencyList(first, list, num)
      ensures servers[..] == TryAll(old(servers[..]), list, oks, if num < |list| then num else |list|, rttMax)
    {
      emergList[0] := first;
      var k, left := 1, num;
      while k < emergList.Length
        invariant 1 <= k <= emergList.Length && left == if num < k then 0 else num - (k - 1)
        invariant forall j :: 0 <= j < k ==> emergList[j] == Entry(first, list, num, j)
        invariant servers[..] == TryAll(old(servers[..]), list, oks, if num < k - 1 then num else k - 1, rttMax)
      {
        if left > 0 {
          emergList[k] := list[k - 1];
          TryAddServer(list[k - 1], oks[k - 1]);
          left := left - 1;
        } else {
          emergList[k] := Address(0, 0);
        }
        k := k + 1;
      }
      assert emergList[..] == EmergencyList(first, list, num);
    }

    method RecordRtt(i: nat, sample: nat, cmd: Command)
      requires Valid() && i < ALT_SERVERS_MAX && servers[i].sock
      modifies servers
      ensures Valid() && View() == Apply(old(View()), Step.Rtt(i, sample, cmd))
    {
      StepInv(View(), Step.Rtt(i, sample, cmd));
      var rtt := if sample == 0 then 1 else sample;
      if rtt > rttMax {
        assert servers[..] == servers[..][i := servers[i]];
        return;
      }
      var s := servers[i];
      if rtt < s.min {
        s := s.(min := rtt);
      }
      if rtt > s.max {
        s := s.(max := rtt);
      }
      if s.srtt == 0 {
        servers[i] := s.(srtt := rtt * SRTT_UNIT);
        return;
      }
      match cmd
      case GetBlock =>
        servers[i] := s.(srtt := (SRTT_BETA * s.srtt + SRTT_BETA_COMP * rtt * SRTT_UNIT) / SRTT_BETA_BASE);
      case GetSize => servers[i] := s.(srtt := rtt * SRTT_UNIT);
      case GetServers => servers[i] := s.(srtt := rtt * SRTT_UNIT);
    }
  }
}
