// What the steps of the second block driver do, said from the servers before them.

module TakeoverSteps {
  import opened Options
  import opened Takeover

  // A stalled server -----------------------------------------------------------------

  // The first configured server other than the active one
  predicate IsFirstOther(servers: seq<Server>, active: Option<nat>, first: nat) {
    && first < |servers| && servers[first].sock && active != Some(first)
    && forall j :: 0 <= j < first ==> !servers[j].sock || active == Some(j)
  }

  lemma NextIsFirst(servers: seq<Server>, active: Option<nat>)
    ensures var next := NextServer(servers, active, 0);
      if next < |servers| then IsFirstOther(servers, active, next)
      else forall j :: 0 <= j < |servers| ==> !servers[j].sock || active == Some(j)
  {
    var next := NextServer(servers, active, 0);
    forall j | 0 <= j < next
      ensures !servers[j].sock || active == Some(j)
    {
      assert !IsNext(servers[j], j, active);
    }
  }

  // The active server is stalled and another one is configured: the stalled one is removed,
  // and the first other one takes over, unless among those left another overtakes it.
  lemma StallTakesOver(s: State, oks: seq<bool>, first: nat)
    requires Inv(s) && |oks| == ALT_SERVERS_MAX && s.active.Some? && IsFirstOther(s.servers, s.active, first)
    ensures
      var left := s.servers[s.active.value := EMPTY];
      var u, t := s.(active := Some(first), servers := left), ActivateFastestStep(s, true, oks);
      && t == s.(active := t.active, servers := left)
      && t.active.Some? && t.active != s.active && t.servers[t.active.value].sock
      && (t.active == Some(first) <==> forall i :: 0 <= i < |left| ==> !Overtakes(u, i))
      && (t.active != Some(first) ==> Overtakes(u, t.active.value))
  {
    NextIsFirst(s.servers, s.active);
    var u := s.(active := Some(first), servers := s.servers[s.active.value := EMPTY]);
    SwitchIff(u, oks);
  }

  // Without another one it is kept, and the servers of the emergency list are tried once.
  lemma StallAlone(s: State, oks: seq<bool>)
    requires Inv(s) && |oks| == ALT_SERVERS_MAX && s.active.Some?
    requires forall j :: 0 <= j < |s.servers| && s.servers[j].sock ==> s.active == Some(j)
    ensures var t := ActivateFastestStep(s, true, oks);
      && t == s.(emergency := true, servers := t.servers)
      && (s.emergency ==> t == s)
      && (!s.emergency ==> forall k :: 0 <= k < |s.emergList| ==> Tried(t.servers, s.emergList[k], oks[k]))
  {
    NextIsFirst(s.servers, s.active);
    forall k | 0 <= k < |s.emergList|
      ensures Tried(TryAll(s.servers, s.emergList, oks, |s.emergList|, s.rttMax), s.emergList[k], oks[k])
    {
      TryAllTries(s.servers, s.emergList, oks, |s.emergList|, s.rttMax, k);
    }
  }

  // An address that can be reached is among the servers, or there is no slot left.
  ghost predicate Tried(servers: seq<Server>, address: Address, ok: bool) {
    ok && address.ip != 0 && address.port != 0 ==>
      Known(servers, address) || forall i :: 0 <= i < |servers| ==> servers[i].sock
  }

  predicate IsStall(step: Step) {
    step.ActivateFastest? && step.stalled
  }

  lemma {:induction false} EmergencyNeedsStall(s: State, steps: seq<Step>)
    requires !s.emergency && Run(s, steps).emergency
    ensures exists i :: 0 <= i < |steps| && IsStall(steps[i])
    decreases |steps|
  {
    if steps != [] {
      if Next(s, steps[0]).emergency {
        assert IsStall(steps[0]);
      } else {
        EmergencyNeedsStall(Next(s, steps[0]), steps[1..]);
        var i :| 0 <= i < |steps[1..]| && IsStall(steps[1..][i]);
        assert IsStall(steps[i + 1]);
      }
    }
  }

  // In every run the emergency mode is on only after a stall.
  lemma EmergencyInRun(rttMax: nat, toPercent: int, toJiffies: nat, steps: seq<Step>)
    requires Run(Initial(rttMax, toPercent, toJiffies), steps).emergency
    ensures exists i :: 0 <= i < |steps| && IsStall(steps[i])
  {
    EmergencyNeedsStall(Initial(rttMax, toPercent, toJiffies), steps);
  }

  // A server is added exactly if its address is not among the servers and a slot is free: in
  // the first free one, and nowhere else.
  lemma TryAddIff(servers: seq<Server>, address: Address, ok: bool, rttMax: nat, i: nat)
    requires i <= |servers| && (forall j :: 0 <= j < i ==> servers[j].sock) && (i < |servers| ==> !servers[i].sock)
    ensures var r := TryAdd(servers, address, ok, rttMax);
      && (forall j :: 0 <= j < |servers| && j != i ==> r[j] == servers[j])
      && (i < |servers| ==>
            r[i] == if Known(servers, address) || address.ip == 0 || address.port == 0 then servers[i]
                    else if ok then Server(true, address, rttMax, 0, 0)
                    else EMPTY)
  {
    assert FreeSlot(servers, 0) == i;
  }

  lemma FirstFree(servers: seq<Server>) returns (i: nat)
    ensures i <= |servers| && (forall j :: 0 <= j < i ==> servers[j].sock) && (i < |servers| ==> !servers[i].sock)
  {
    i := FreeSlot(servers, 0);
  }

  lemma TryAddTries(servers: seq<Server>, address: Address, ok: bool, rttMax: nat)
    ensures Tried(TryAdd(servers, address, ok, rttMax), address, ok)
  {
    var i := FirstFree(servers);
    TryAddIff(servers, address, ok, rttMax, i);
    var r := TryAdd(servers, address, ok, rttMax);
    if i < |servers| && !Known(servers, address) && ok && address.ip != 0 && address.port != 0 {
      assert r[i].sock && r[i].address == address;
    }
  }

  lemma TriedStays(servers: seq<Server>, r: seq<Server>, address: Address, ok: bool)
    requires |r| == |servers| && Tried(servers, address, ok)
    requires forall i :: 0 <= i < |servers| && servers[i].sock ==> r[i] == servers[i]
    ensures Tried(r, address, ok)
  {
    if Known(servers, address) {
      var i :| 0 <= i < |servers| && servers[i].sock && servers[i].address == address;
      assert r[i].sock && r[i].address == address;
    }
  }

  lemma {:induction false} TryAllTries(servers: seq<Server>, list: seq<Address>, oks: seq<bool>, n: nat, rttMax: nat,
                                       k: nat)
    requires k < n <= |list| <= |oks|
    ensures Tried(TryAll(servers, list, oks, n, rttMax), list[k], oks[k])
  {
    var before := TryAll(servers, list, oks, n - 1, rttMax);
    if k < n - 1 {
      TryAllTries(servers, list, oks, n - 1, rttMax, k);
      TryAddKeeps(before, list[n - 1], oks[n - 1], rttMax);
      TriedStays(before, TryAdd(before, list[n - 1], oks[n - 1], rttMax), list[k], oks[k]);
    } else {
      TryAddTries(before, list[k], oks[k], rttMax);
    }
  }

  lemma TryAddKeeps(servers: seq<Server>, address: Address, ok: bool, rttMax: nat)
    ensures var r := TryAdd(servers, address, ok, rttMax);
      forall i :: 0 <= i < |servers| && servers[i].sock ==> r[i] == servers[i]
  {
  }

  // Thresholds -------------------------------------------------------------------------

  // Each threshold that is not zero has to be met, and one of them has to be set.
  lemma ThresholdsMean(srtt: int, min: int, toPercent: int, toJiffies: nat)
    ensures toPercent == 0 && toJiffies == 0 ==> !WorthSwitching(srtt, min, toPercent, toJiffies)
    ensures toPercent != 0 && toJiffies == 0 ==>
      (WorthSwitching(srtt, min, toPercent, toJiffies) <==> 100 * min <= (100 - toPercent) * srtt)
    ensures toPercent == 0 && toJiffies != 0 ==>
      (WorthSwitching(srtt, min, toPercent, toJiffies) <==> srtt - min >= toJiffies)
    ensures toPercent != 0 && toJiffies != 0 ==>
      (WorthSwitching(srtt, min, toPercent, toJiffies) <==>
        WorthSwitching(srtt, min, toPercent, 0) && WorthSwitching(srtt, min, 0, toJiffies))
  {
    assert 100 * (srtt - min) - toPercent * srtt == (100 - toPercent) * srtt - 100 * min;
  }

  // Replies ----------------------------------------------------------------------------

  // A reply ends the emergency mode with its sender as the active server; the emergency list
  // becomes the sender and the servers it knows, and those are tried.
  lemma ReplyEndsEmergency(s: State, i: nat, num: nat, list: seq<Address>, oks: seq<bool>)
    requires Enabled(s, Reply(i, num, list, oks))
    ensures var t := Apply(s, Reply(i, num, list, oks));
      && !t.emergency && t.active == (if s.emergency then Some(i) else s.active) && t.running == s.running
      && |t.emergList| == ALT_SERVERS_MAX && t.emergList[0] == s.servers[i].address
      && (forall k :: 0 < k < ALT_SERVERS_MAX ==> t.emergList[k] == if k <= num then list[k - 1] else Address(0, 0))
      && (forall k :: 0 <= k < |list| && k < num ==> Tried(t.servers, list[k], oks[k]))
      && (forall j :: 0 <= j < |s.servers| && s.servers[j].sock ==> t.servers[j] == s.servers[j])
  {
    var n := if num < |list| then num else |list|;
    TryAllKeeps(s.servers, list, oks, n, s.rttMax);
    forall k | 0 <= k < n
      ensures Tried(TryAll(s.servers, list, oks, n, s.rttMax), list[k], oks[k])
    {
      TryAllTries(s.servers, list, oks, n, s.rttMax, k);
    }
    forall k | 0 < k < ALT_SERVERS_MAX
      ensures EmergencyList(s.servers[i].address, list, num)[k] == if k <= num then list[k - 1] else Address(0, 0)
    {
      assert EmergencyList(s.servers[i].address, list, num)[k] == Entry(s.servers[i].address, list, num, k);
    }
  }

  // An accepted time widens the range of times; the first one, and those of short requests,
  // are taken as they are, others weigh 10 in 1000, rounded down.
  lemma RttUpdated(s: Server, sample: nat, cmd: Command, rttMax: nat)
    ensures var rtt, t := if sample == 0 then 1 else sample, UpdateRtt(s, sample, cmd, rttMax);
      if rtt > rttMax then t == s
      else
        && t.sock == s.sock && t.address == s.address
        && t.min <= rtt && t.min <= s.min && (t.min == rtt || t.min == s.min)
        && t.max >= rtt && t.max >= s.max && (t.max == rtt || t.max == s.max)
        && if s.srtt == 0 || cmd != GetBlock then t.srtt == 1024 * rtt
           else 1000 * t.srtt <= 990 * s.srtt + 10 * (1024 * rtt) < 1000 * (t.srtt + 1)
  {
  }

  // The administrator --------------------------------------------------------------------

  // The device starts with the server that told the capacity and keeps the addresses of all
  // servers for an emergency.
  lemma Started(s: State, i: nat)
    requires Enabled(s, Start(i))
    ensures var t := Apply(s, Start(i));
      && t.running && t.active == Some(i) && t.servers == s.servers && t.emergency == s.emergency
      && |t.emergList| == |s.servers|
      && forall k :: 0 <= k < |s.servers| ==> t.emergList[k] == s.servers[k].address
  {
  }

  // A slot takes a new server unless it is the active one of a running device; one that
  // cannot be reached leaves the slot empty.
  lemma SlotWritten(s: State, i: nat, address: Address, ok: bool)
    requires Enabled(s, StoreSock(i, address, ok))
    ensures var t := Apply(s, StoreSock(i, address, ok));
      t == s.(servers := s.servers[i :=
        if s.running && s.active == Some(i) then s.servers[i]
        else if ok && address.ip != 0 && address.port != 0 then Server(true, address, s.rttMax, 0, 0)
        else EMPTY])
  {
    assert s.servers[i := s.servers[i]] == s.servers;
  }

  // A server becomes the active one exactly if the device runs and it is configured.
  lemma ActiveWritten(s: State, i: nat)
    requires Enabled(s, StoreActive(i))
    ensures var t := Apply(s, StoreActive(i));
      && t == s.(active := t.active) && (t.active == s.active || t.active == Some(i))
      && (t.active == Some(i) <==> s.active == Some(i) || (s.running && s.servers[i].sock))
  {
  }

  // A server that does not answer is removed, but never the active one.
  lemma ServerRemoved(s: State, i: nat)
    requires Enabled(s, DelServerWork(i))
    ensures var t := Apply(s, DelServerWork(i));
      && t == s.(servers := t.servers) && (forall j :: 0 <= j < |s.servers| && j != i ==> t.servers[j] == s.servers[j])
      && (t.servers[i].sock <==> s.servers[i].sock && s.active == Some(i))
  {
  }
}
