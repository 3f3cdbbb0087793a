// The life of the requests in the block driver: the kernel hands them in, the sending
// thread takes them from tx_queue, the receiving thread matches replies with rx_queue, and
// a timer moves what has waited too long back. Every step below is one stretch of the
// code during which no other thread sees the request it works on. The kernel's request is
// two steps, because do_request gives up its lock between the test of the running flag and
// the queue.

module RequestProtocol {
  import opened Options
  import opened RequestQueues
  import opened Sequences

  // Sectors of a request reported to the kernel, as read or as failed.
  datatype Transfer = Transfer(id: nat, from: nat, count: nat, ok: bool)

  datatype State = State(
    running: bool,
    requests: map<nat, Request>,
    entering: set<nat>,
    tx: seq<nat>,
    rx: seq<nat>,
    txHeld: Option<nat>,
    rxHeld: Option<nat>,
    completed: seq<nat>,
    log: seq<Transfer>)

  datatype Step =
    | Start
    | Stop
    // do_request: a request of the kernel is accepted or fails, and enters tx_queue
    | Submit(id: nat, first: nat, length: nat, read: bool)
    | Enter(id: nat)
    // tx_loop: take a request; it is cached, or it waits in rx_queue and is sent
    | TxTake
    | TxCached(count: nat)
    | TxWait
    | TxSent(id: nat, now: nat)
    // recv_reply: find the request of a reply; it has brought this many sectors
    | RxTake(pos: nat)
    | RxEnd(count: nat)
    // rexmit, and the end of the last thread
    | Rexmit(timeout: nat)
    | Clear

  function Remaining(r: Request): nat {
    if r.done <= r.length then r.length - r.done else 0
  }

  // dnbd_end_request: the next sectors are done; with the last one the request is completed.
  function EndRequest(s: State, id: nat, count: nat, ok: bool): State
    requires id in s.requests
  {
    var r := s.requests[id];
    s.(requests := s.requests[id := r.(done := r.done + count)],
       log := s.log + [Transfer(id, r.Sector(), count, ok)],
       completed := if r.done + count >= r.length then s.completed + [id] else s.completed)
  }

  // A request that is not yet completed goes to the head of tx_queue again.
  function Resubmit(s: State, id: nat): State
    requires id in s.requests
  {
    if s.requests[id].done < s.requests[id].length then s.(tx := [id] + s.tx) else s
  }

  // dnbd_clear_queue: everything in the queue fails, the request at the tail first.
  function FailAll(s: State, q: seq<nat>): State
    requires forall id :: id in q ==> id in s.requests
    decreases |q|
  {
    if q == [] then s
    else
      var id := q[|q| - 1];
      FailAll(EndRequest(s, id, Remaining(s.requests[id]), false), q[..|q| - 1])
  }

  function Requeued(s: State, timeout: nat): State {
    s.(tx := Reverse(Late(s.rx, s.requests, timeout)) + s.tx, rx := OnTime(s.rx, s.requests, timeout))
  }

  predicate Enabled(s: State, step: Step) {
    match step
    case Start => true
    case Stop => true
    case Submit(id, first, length, read) => id !in s.requests && length > 0
    case Enter(id) => id in s.entering
    case TxTake => s.txHeld.None? && s.tx != []
    case TxCached(count) =>
      s.txHeld.Some? && s.txHeld.value in s.requests && 0 < count <= Remaining(s.requests[s.txHeld.value])
    case TxWait => s.txHeld.Some?
    case TxSent(id, now) => id in s.requests
    case RxTake(pos) => s.rxHeld.None?
    case RxEnd(count) =>
      s.rxHeld.Some? && s.rxHeld.value in s.requests && count <= Remaining(s.requests[s.rxHeld.value])
    case Rexmit(timeout) => true
    case Clear =>
      && s.txHeld.None? && s.rxHeld.None?
      && (forall id :: id in s.rx ==> id in s.requests) && (forall id :: id in s.tx ==> id in s.requests)
  }

  function Apply(s: State, step: Step): State
    requires Enabled(s, step)
  {
    match step
    case Start => s.(running := true)
    case Stop => s.(running := false)
    case Submit(id, first, length, read) =>
      var t := s.(requests := s.requests[id := Request(first, length, 0, 0)]);
      if s.running && read then t.(entering := s.entering + {id}) else EndRequest(t, id, length, false)
    case Enter(id) => s.(entering := s.entering - {id}, tx := [id] + s.tx)
    case TxTake => s.(txHeld := Some(s.tx[|s.tx| - 1]), tx := s.tx[..|s.tx| - 1])
    case TxCached(count) =>
      var id := s.txHeld.value;
      Resubmit(EndRequest(s.(txHeld := None), id, count, true), id)
    case TxWait => s.(txHeld := None, rx := [s.txHeld.value] + s.rx)
    case TxSent(id, now) => s.(requests := s.requests[id := s.requests[id].(start := now)])
    case RxTake(pos) =>
      var i := Match(s.rx, s.requests, pos);
      if i < |s.rx| then s.(rxHeld := Some(s.rx[i]), rx := s.rx[..i] + s.rx[i + 1..]) else s
    case RxEnd(count) =>
      var id := s.rxHeld.value;
      Resubmit(EndRequest(s.(rxHeld := None), id, count, true), id)
    case Rexmit(timeout) =>
      Requeued(s, timeout)
    case Clear =>
      ClearQueues(s)
  }

  lemma NothingToFail(s: State)
    ensures FailAll(s, []) == s
  {
  }

  lemma {:induction false} FailAllKeys(s: State, q: seq<nat>)
    requires forall id :: id in q ==> id in s.requests
    ensures FailAll(s, q).requests.Keys == s.requests.Keys
    ensures FailAll(s, q).tx == s.tx && FailAll(s, q).rx == s.rx
    decreases |q|
  {
    if q != [] {
      var id := q[|q| - 1];
      FailAllKeys(EndRequest(s, id, Remaining(s.requests[id]), false), q[..|q| - 1]);
    }
  }

  function ClearQueues(s: State): State
    requires (forall id :: id in s.rx ==> id in s.requests) && (forall id :: id in s.tx ==> id in s.requests)
  {
    var t := s.(rx := []);
    FailAllKeys(t, s.rx);
    FailAll(FailAll(t, s.rx).(tx := []), s.tx)
  }

  function Next(s: State, step: Step): State {
    if Enabled(s, step) then Apply(s, step) else s
  }

  const INITIAL := State(false, map[], {}, [], [], None, None, [], [])

  // Any interleaving of the threads is some sequence of steps.
  function Run(s: State, steps: seq<Step>): State
    decreases |steps|
  {
    if steps == [] then s else Run(Next(s, steps[0]), steps[1..])
  }

  // The invariant -------------------------------------------------------------------

  function HeldCount(held: Option<nat>, id: nat): nat {
    if held == Some(id) then 1 else 0
  }

  // In how many places the request is
  function Places(s: State, id: nat): nat {
    multiset(s.tx)[id] + multiset(s.rx)[id] + HeldCount(s.txHeld, id) + HeldCount(s.rxHeld, id)
    + multiset(s.completed)[id] + multiset(s.entering)[id]
  }

  // The transfers of a request are its first done sectors, in order.
  predicate Covers(log: seq<Transfer>, id: nat, first: nat, done: nat)
    decreases |log|
  {
    if log == [] then done == 0
    else
      var t, rest := log[|log| - 1], log[..|log| - 1];
      if t.id != id then Covers(rest, id, first, done)
      else t.count <= done && t.from + t.count == first + done && Covers(rest, id, first, done - t.count)
  }

  predicate RequestFits(r: Request, id: nat, completed: seq<nat>, log: seq<Transfer>) {
    && 0 < r.length && r.done <= r.length
    && (id in completed <==> r.done == r.length)
    && Covers(log, id, r.first, r.done)
  }

  predicate PlacedOnce(s: State, limbo: multiset<nat>, id: nat) {
    Places(s, id) + limbo[id] == if id in s.requests then 1 else 0
  }

  // limbo holds the requests that a step has in its hands.
  ghost predicate Inv(s: State, limbo: multiset<nat>) {
    && (forall id :: PlacedOnce(s, limbo, id))
    && (forall id :: id in s.requests ==> RequestFits(s.requests[id], id, s.completed, s.log))
    && (forall t :: t in s.log ==> t.id in s.requests)
  }

  // Places change without the rest of the state.
  lemma Moved(s: State, t: State, before: multiset<nat>, after: multiset<nat>)
    requires Inv(s, before)
    requires t.requests == s.requests && t.completed == s.completed && t.log == s.log
    requires forall id :: Places(t, id) + after[id] == Places(s, id) + before[id]
    ensures Inv(t, after)
  {
    forall id: nat ensures PlacedOnce(t, after, id) {
      assert PlacedOnce(s, before, id);
    }
  }

  lemma {:induction false} CoversOther(log: seq<Transfer>, id: nat, first: nat, done: nat, t: Transfer)
    requires Covers(log, id, first, done)
    ensures t.id != id ==> Covers(log + [t], id, first, done)
    ensures t.id == id && t.from == first + done ==> Covers(log + [t], id, first, done + t.count)
  {
    assert (log + [t])[..|log|] == log;
  }

  lemma {:induction false} CoversNothing(log: seq<Transfer>, id: nat, first: nat)
    requires forall t :: t in log ==> t.id != id
    ensures Covers(log, id, first, 0)
    decreases |log|
  {
    if log != [] {
      CoversNothing(log[..|log| - 1], id, first);
    }
  }

  lemma PlacesEnded(s: State, id: nat, count: nat, ok: bool, j: nat)
    requires id in s.requests
    ensures var r := s.requests[id];
      Places(EndRequest(s, id, count, ok), j) == Places(s, j) + if j == id && r.done + count >= r.length then 1 else 0
  {
  }

  // Ending a part of a request: what remains stays in the hands of the step.
  lemma EndRequestInv(s: State, limbo: multiset<nat>, id: nat, count: nat, ok: bool)
    requires Inv(s, limbo) && limbo[id] > 0 && id in s.requests && count <= Remaining(s.requests[id])
    ensures var t := EndRequest(s, id, count, ok);
      Inv(t, if t.requests[id].done == t.requests[id].length then limbo - multiset{id} else limbo)
  {
    var t := EndRequest(s, id, count, ok);
    var after := if t.requests[id].done == t.requests[id].length then limbo - multiset{id} else limbo;
    assert RequestFits(s.requests[id], id, s.completed, s.log);
    assert PlacedOnce(s, limbo, id);
    forall j: nat ensures PlacedOnce(t, after, j) {
      PlacesEnded(s, id, count, ok, j);
      assert PlacedOnce(s, limbo, j);
    }
    forall j | j in t.requests ensures RequestFits(t.requests[j], j, t.completed, t.log) {
      assert RequestFits(s.requests[j], j, s.completed, s.log);
      var r := s.requests[j];
      CoversOther(s.log, j, r.first, r.done, Transfer(id, s.requests[id].Sector(), count, ok));
    }
  }

  lemma ResubmitInv(s: State, limbo: multiset<nat>, id: nat)
    requires id in s.requests
    requires Inv(s, if s.requests[id].done == s.requests[id].length then limbo else limbo + multiset{id})
    ensures Inv(Resubmit(s, id), limbo)
  {
    if s.requests[id].done < s.requests[id].length {
      Moved(s, Resubmit(s, id), limbo + multiset{id}, limbo);
    } else {
      assert RequestFits(s.requests[id], id, s.completed, s.log);
    }
  }

  // Each step keeps the invariant -----------------------------------------------------

  lemma SubmitInv(s: State, id: nat, first: nat, length: nat, read: bool)
    requires Inv(s, multiset{}) && id !in s.requests && length > 0
    ensures Inv(Apply(s, Submit(id, first, length, read)), multiset{})
  {
    var t := s.(requests := s.requests[id := Request(first, length, 0, 0)]);
    assert PlacedOnce(s, multiset{}, id);
    forall j | j in t.requests ensures RequestFits(t.requests[j], j, t.completed, t.log) {
      if j == id {
        CoversNothing(s.log, id, first);
        assert multiset(s.completed)[id] == 0;
      } else {
        assert RequestFits(s.requests[j], j, s.completed, s.log);
      }
    }
    forall j: nat ensures PlacedOnce(t, multiset{id}, j) {
      assert PlacedOnce(s, multiset{}, j);
    }
    if s.running && read {
      assert id !in s.entering;
      Moved(t, t.(entering := t.entering + {id}), multiset{id}, multiset{});
    } else {
      EndRequestInv(t, multiset{id}, id, length, false);
      assert multiset{id} - multiset{id} == multiset{};
    }
  }

  lemma EnterInv(s: State, id: nat)
    requires Inv(s, multiset{}) && id in s.entering
    ensures Inv(Apply(s, Enter(id)), multiset{})
  {
    Moved(s, Apply(s, Enter(id)), multiset{}, multiset{});
  }

  lemma TakeInv(s: State)
    requires Inv(s, multiset{}) && Enabled(s, TxTake)
    ensures Inv(Apply(s, TxTake), multiset{})
  {
    assert s.tx == s.tx[..|s.tx| - 1] + [s.tx[|s.tx| - 1]];
    Moved(s, Apply(s, TxTake), multiset{}, multiset{});
  }

  lemma CachedInv(s: State, count: nat)
    requires Inv(s, multiset{}) && Enabled(s, TxCached(count))
    ensures Inv(Apply(s, TxCached(count)), multiset{})
  {
    var id := s.txHeld.value;
    var t := s.(txHeld := None);
    Moved(s, t, multiset{}, multiset{id});
    EndedInv(t, id, count);
  }

  lemma ReplyInv(s: State, count: nat)
    requires Inv(s, multiset{}) && Enabled(s, RxEnd(count))
    ensures Inv(Apply(s, RxEnd(count)), multiset{})
  {
    var id := s.rxHeld.value;
    var t := s.(rxHeld := None);
    Moved(s, t, multiset{}, multiset{id});
    EndedInv(t, id, count);
  }

  lemma EndedInv(t: State, id: nat, count: nat)
    requires Inv(t, multiset{id}) && id in t.requests && count <= Remaining(t.requests[id])
    ensures Inv(Resubmit(EndRequest(t, id, count, true), id), multiset{})
  {
    EndRequestInv(t, multiset{id}, id, count, true);
    assert multiset{id} - multiset{id} == multiset{} && multiset{} + multiset{id} == multiset{id};
    ResubmitInv(EndRequest(t, id, count, true), multiset{}, id);
  }

  lemma WaitInv(s: State)
    requires Inv(s, multiset{}) && Enabled(s, TxWait)
    ensures Inv(Apply(s, TxWait), multiset{})
  {
    Moved(s, Apply(s, TxWait), multiset{}, multiset{});
  }

  lemma SentInv(s: State, id: nat, now: nat)
    requires Inv(s, multiset{}) && id in s.requests
    ensures Inv(Apply(s, TxSent(id, now)), multiset{})
  {
    var t := Apply(s, TxSent(id, now));
    forall j: nat ensures PlacedOnce(t, multiset{}, j) {
      assert PlacedOnce(s, multiset{}, j);
    }
    forall j | j in t.requests ensures RequestFits(t.requests[j], j, t.completed, t.log) {
      assert RequestFits(s.requests[j], j, s.completed, s.log);
    }
  }

  lemma TakenOut(q: seq<nat>, i: nat)
    requires i < |q|
    ensures multiset(q) == multiset(q[..i] + q[i + 1..]) + multiset{q[i]}
  {
    assert q == q[..i] + [q[i]] + q[i + 1..];
  }

  lemma MatchInv(s: State, pos: nat)
    requires Inv(s, multiset{}) && Enabled(s, RxTake(pos))
    ensures Inv(Apply(s, RxTake(pos)), multiset{})
  {
    var i := Match(s.rx, s.requests, pos);
    if i < |s.rx| {
      TakenOut(s.rx, i);
      Moved(s, Apply(s, RxTake(pos)), multiset{}, multiset{});
    }
  }

  lemma RexmitInv(s: State, timeout: nat)
    requires Inv(s, multiset{})
    ensures Inv(Requeued(s, timeout), multiset{})
  {
    LateSplit(s.rx, s.requests, timeout);
    ReverseMultiset(Late(s.rx, s.requests, timeout));
    Moved(s, Requeued(s, timeout), multiset{}, multiset{});
  }

  lemma {:induction false} FailAllInv(s: State, limbo: multiset<nat>, q: seq<nat>)
    requires Inv(s, limbo + multiset(q)) && forall id :: id in q ==> id in s.requests
    ensures Inv(FailAll(s, q), limbo)
    decreases |q|
  {
    if q == [] {
      assert limbo + multiset(q) == limbo;
    } else {
      var rest, id := q[..|q| - 1], q[|q| - 1];
      assert q == rest + [id];
      var all := limbo + multiset(q);
      assert RequestFits(s.requests[id], id, s.completed, s.log);
      EndRequestInv(s, all, id, Remaining(s.requests[id]), false);
      assert all - multiset{id} == limbo + multiset(rest);
      FailAllInv(EndRequest(s, id, Remaining(s.requests[id]), false), limbo, rest);
    }
  }

  lemma ClearInv(s: State)
    requires Inv(s, multiset{}) && Enabled(s, Clear)
    ensures Inv(Apply(s, Clear), multiset{})
  {
    var t := s.(rx := []);
    Moved(s, t, multiset{}, multiset{} + multiset(s.rx));
    FailAllInv(t, multiset{}, s.rx);
    FailAllKeys(t, s.rx);
    var u := FailAll(t, s.rx);
    Moved(u, u.(tx := []), multiset{}, multiset{} + multiset(s.tx));
    FailAllInv(u.(tx := []), multiset{}, s.tx);
  }

  lemma StepInv(s: State, step: Step)
    requires Inv(s, multiset{})
    ensures Inv(Next(s, step), multiset{})
  {
    if Enabled(s, step) {
      match step
      case Start => Moved(s, Apply(s, step), multiset{}, multiset{});
      case Stop => Moved(s, Apply(s, step), multiset{}, multiset{});
      case Submit(id, first, length, read) => SubmitInv(s, id, first, length, read);
      case Enter(id) => EnterInv(s, id);
      case TxTake => TakeInv(s);
      case TxCached(count) => CachedInv(s, count);
      case TxWait => WaitInv(s);
      case TxSent(id, now) => SentInv(s, id, now);
      case RxTake(pos) => MatchInv(s, pos);
      case RxEnd(count) => ReplyInv(s, count);
      case Rexmit(timeout) => RexmitInv(s, timeout);
      case Clear => ClearInv(s);
    }
  }

  lemma {:induction false} RunInv(s: State, steps: seq<Step>)
    requires Inv(s, multiset{})
    ensures Inv(Run(s, steps), multiset{})
    decreases |steps|
  {
    if steps != [] {
      StepInv(s, steps[0]);
      RunInv(Next(s, steps[0]), steps[1..]);
    }
  }

  // What follows for every run ----------------------------------------------------------

  // How often a sector of a request was reported to the kernel
  function Reported(log: seq<Transfer>, id: nat, sector: nat): nat {
    if log == [] then 0
    else
      var t := log[|log| - 1];
      Reported(log[..|log| - 1], id, sector) + if t.id == id && t.from <= sector < t.from + t.count then 1 else 0
  }

  lemma {:induction false} CoversOnce(log: seq<Transfer>, id: nat, first: nat, done: nat, sector: nat)
    requires Covers(log, id, first, done)
    ensures Reported(log, id, sector) == if first <= sector < first + done then 1 else 0
    decreases |log|
  {
    if log != [] {
      var t := log[|log| - 1];
      CoversOnce(log[..|log| - 1], id, first, if t.id == id then done - t.count else done, sector);
    }
  }

  lemma InitialInv()
    ensures Inv(INITIAL, multiset{})
  {
  }

  // In every run each accepted request is in exactly one place, is completed at most once,
  // and is completed exactly when each of its sectors was reported once; no sector is
  // reported twice, and none outside the request.
  lemma RequestsAreSafe(steps: seq<Step>, id: nat, sector: nat)
    ensures var s := Run(INITIAL, steps);
      if id in s.requests then
        var r := s.requests[id];
        && Places(s, id) == 1
        && (id in s.completed <==> r.done == r.length)
        && Reported(s.log, id, sector) == (if r.first <= sector < r.first + r.done then 1 else 0)
      else
        Places(s, id) == 0 && Reported(s.log, id, sector) == 0
  {
    InitialInv();
    RunInv(INITIAL, steps);
    var s := Run(INITIAL, steps);
    assert PlacedOnce(s, multiset{}, id);
    if id in s.requests {
      assert RequestFits(s.requests[id], id, s.completed, s.log);
      CoversOnce(s.log, id, s.requests[id].first, s.requests[id].done, sector);
    } else {
      CoversNothing(s.log, id, 0);
      CoversOnce(s.log, id, 0, 0, sector);
    }
  }

  // A completed request stays completed, and nothing more is transferred for it.
  lemma CompletedStays(s: State, step: Step, id: nat)
    requires Inv(s, multiset{}) && id in s.completed
    ensures var t := Next(s, step);
      id in s.requests && id in t.requests && id in t.completed && t.requests[id].done == s.requests[id].length
  {
    var t := Next(s, step);
    assert multiset(s.completed)[id] > 0;
    assert PlacedOnce(s, multiset{}, id);
    StepInv(s, step);
    NextGrows(s, step, id);
    assert RequestFits(t.requests[id], id, t.completed, t.log);
  }

  lemma {:induction false} FailAllGrows(s: State, q: seq<nat>, id: nat)
    requires (forall j :: j in q ==> j in s.requests) && id in s.requests
    ensures var t := FailAll(s, q);
      id in t.requests && t.requests[id].length == s.requests[id].length && (id in s.completed ==> id in t.completed)
    decreases |q|
  {
    if q != [] {
      var j := q[|q| - 1];
      FailAllGrows(EndRequest(s, j, Remaining(s.requests[j]), false), q[..|q| - 1], id);
    }
  }

  // No step forgets a request, changes its length, or takes back a completion.
  lemma NextGrows(s: State, step: Step, id: nat)
    requires id in s.requests
    ensures var t := Next(s, step);
      id in t.requests && t.requests[id].length == s.requests[id].length && (id in s.completed ==> id in t.completed)
  {
    if Enabled(s, step) && step.Clear? {
      var t := s.(rx := []);
      FailAllKeys(t, s.rx);
      FailAllGrows(t, s.rx, id);
      FailAllGrows(FailAll(t, s.rx).(tx := []), s.tx, id);
    }
  }

  // A request that waited past the timeout is queued for sending again.
  lemma LateRequestsReturn(s: State, timeout: nat, id: nat)
    requires id in s.rx && TimedOut(id, s.requests, timeout)
    ensures id in Apply(s, Rexmit(timeout)).tx
  {
    LateMember(s.rx, s.requests, timeout, id);
    ReverseMember(Late(s.rx, s.requests, timeout), id);
  }

  // When the threads have ended, exactly the requests that were still on their way into
  // tx_queue are not completed.
  lemma ClearCompletes(s: State, id: nat)
    requires Inv(s, multiset{}) && Enabled(s, Clear) && id in s.requests
    ensures id in Apply(s, Clear).completed <==> id !in s.entering
  {
    var t := Apply(s, Clear);
    StepInv(s, Clear);
    NextGrows(s, Clear, id);
    ClearedPlaces(s);
    assert PlacedOnce(t, multiset{}, id);
  }

  // Afterwards both queues and the hands of the threads are empty.
  lemma ClearedPlaces(s: State)
    requires Enabled(s, Clear)
    ensures var t := Apply(s, Clear);
      && t.tx == [] && t.rx == [] && t.txHeld.None? && t.rxHeld.None?
      && t.entering == s.entering && t.running == s.running && t.requests.Keys == s.requests.Keys
  {
    var u := s.(rx := []);
    var v := FailAll(u, s.rx).(tx := []);
    FailAllKeys(u, s.rx);
    FailAllKeys(v, s.tx);
    FailAllHeld(u, s.rx);
    FailAllHeld(v, s.tx);
  }

  lemma {:induction false} FailAllHeld(s: State, q: seq<nat>)
    requires forall j :: j in q ==> j in s.requests
    ensures FailAll(s, q).txHeld == s.txHeld && FailAll(s, q).rxHeld == s.rxHeld
    ensures FailAll(s, q).entering == s.entering && FailAll(s, q).running == s.running
    decreases |q|
  {
    if q != [] {
      var j := q[|q| - 1];
      FailAllHeld(EndRequest(s, j, Remaining(s.requests[j]), false), q[..|q| - 1]);
    }
  }

  // After the queues were cleared -----------------------------------------------------------

  // The threads have ended: only the kernel, the timer, a send still under way and the reset
  // of the running flag go on.
  predicate Quiet(step: Step) {
    step.Submit? || step.Enter? || step.TxSent? || step.Rexmit? || step.Stop?
  }

  // The step accepts the request: a read, while the flag is still set.
  predicate Accepts(s: State, step: Step, id: nat) {
    Enabled(s, step) && step.Submit? && step.id == id && s.running && step.read
  }

  predicate AcceptedIn(s: State, steps: seq<Step>, id: nat)
    decreases |steps|
  {
    steps != [] && (Accepts(s, steps[0], id) || AcceptedIn(Next(s, steps[0]), steps[1..], id))
  }

  // No thread holds a request, and none waits for a reply.
  predicate Idle(s: State) {
    s.rx == [] && s.txHeld.None? && s.rxHeld.None?
  }

  // A request is completed at once unless it is accepted.
  lemma SubmitCompletesIff(s: State, id: nat, first: nat, length: nat, read: bool)
    requires Inv(s, multiset{}) && id !in s.requests && length > 0
    ensures id in Apply(s, Submit(id, first, length, read)).completed <==> !(s.running && read)
  {
    assert PlacedOnce(s, multiset{}, id);
    assert multiset(s.completed)[id] == 0;
  }

  lemma QuietStep(s: State, step: Step, id: nat)
    requires Inv(s, multiset{}) && Idle(s) && Quiet(step) && id in Next(s, step).requests
    ensures var t := Next(s, step);
      && Idle(t)
      && (id in t.completed <==> if id in s.requests then id in s.completed else !Accepts(s, step, id))
  {
    if Enabled(s, step) {
      match step
      case Submit(j, first, length, read) =>
        SubmitCompletesIff(s, j, first, length, read);
        assert PlacedOnce(s, multiset{}, id);
      case Rexmit(timeout) => LateSplit(s.rx, s.requests, timeout);
      case _ =>
    }
  }

  // In every run without threads the requests that were open stay so, and of the new ones
  // exactly those stay open that were accepted.
  lemma {:induction false} QuietRunIff(s: State, steps: seq<Step>, id: nat)
    requires Inv(s, multiset{}) && Idle(s) && (forall i :: 0 <= i < |steps| ==> Quiet(steps[i]))
    ensures Idle(Run(s, steps))
    ensures id in Run(s, steps).requests ==> (id in Run(s, steps).completed <==>
      if id in s.requests then id in s.completed else !AcceptedIn(s, steps, id))
    decreases |steps|
  {
    if steps != [] {
      var t := Next(s, steps[0]);
      StepInv(s, steps[0]);
      QuietIdle(s, steps[0]);
      QuietRunIff(t, steps[1..], id);
      if id in t.requests {
        QuietStep(s, steps[0], id);
        AcceptedIsNew(t, steps[1..], id);
      }
      if id in s.requests {
        NextGrows(s, steps[0], id);
      }
    }
  }

  lemma QuietIdle(s: State, step: Step)
    requires Idle(s) && Quiet(step)
    ensures Idle(Next(s, step))
  {
    if Enabled(s, step) && step.Rexmit? {
      LateSplit(s.rx, s.requests, step.timeout);
    }
  }

  lemma {:induction false} AcceptedIsNew(s: State, steps: seq<Step>, id: nat)
    requires id in s.requests
    ensures !AcceptedIn(s, steps, id)
    decreases |steps|
  {
    if steps != [] {
      NextGrows(s, steps[0], id);
      AcceptedIsNew(Next(s, steps[0]), steps[1..], id);
    }
  }

  // After the queues were cleared, a request stays open exactly if it was on its way into
  // tx_queue then, or was accepted because the running flag was not yet reset; it is then in
  // tx_queue, or still on its way.
  lemma LostIff(s: State, steps: seq<Step>, id: nat)
    requires Inv(s, multiset{}) && Enabled(s, Clear) && forall i :: 0 <= i < |steps| ==> Quiet(steps[i])
    requires id in Run(Apply(s, Clear), steps).requests
    ensures var t := Run(Apply(s, Clear), steps);
      && (id !in t.completed <==> id in s.entering || AcceptedIn(Apply(s, Clear), steps, id))
      && (id !in t.completed <==> id in t.tx || id in t.entering)
  {
    var t := Apply(s, Clear);
    StepInv(s, Clear);
    ClearedPlaces(s);
    QuietRunIff(t, steps, id);
    RunInv(t, steps);
    assert PlacedOnce(Run(t, steps), multiset{}, id);
    if id in s.requests {
      ClearCompletes(s, id);
      AcceptedIsNew(t, steps, id);
    } else {
      assert PlacedOnce(s, multiset{}, id);
    }
  }

  // The other order of the shutdown is safe: with the flag reset first, nothing more is
  // accepted.
  lemma {:induction false} NothingAccepted(s: State, steps: seq<Step>, id: nat)
    requires !s.running && forall i :: 0 <= i < |steps| ==> Quiet(steps[i])
    ensures !AcceptedIn(s, steps, id)
    decreases |steps|
  {
    if steps != [] {
      NothingAccepted(Next(s, steps[0]), steps[1..], id);
    }
  }

  // A read that comes between the clearing and the reset of the flag is left in tx_queue of a
  // device that has stopped.
  lemma RequestLost()
    ensures var s := Run(INITIAL, [Start, Clear, Submit(0, 0, 1, true), Enter(0), Stop]);
      && !s.running && s.tx == [0] && Idle(s) && s.entering == {}
      && 0 in s.requests && 0 !in s.completed
  {
    var s1 := Next(INITIAL, Start);
    var rest := [Submit(0, 0, 1, true)] + ([Enter(0)] + ([Stop] + []));
    LostRead(s1, 0, 0, 1);
    assert Next(s1, Clear) == s1;
    RunCons(s1, Clear, rest);
    RunCons(INITIAL, Start, [Clear] + rest);
    assert [Start, Clear, Submit(0, 0, 1, true), Enter(0), Stop] == [Start] + ([Clear] + rest);
  }

  lemma LostRead(s: State, id: nat, first: nat, length: nat)
    requires s.running && Idle(s) && s.tx == [] && s.entering == {}
    requires id !in s.requests && id !in s.completed && length > 0
    ensures var t := Run(s, [Submit(id, first, length, true)] + ([Enter(id)] + ([Stop] + [])));
      && !t.running && t.tx == [id] && Idle(t) && t.entering == {} && id in t.requests && id !in t.completed
  {
    var s1 := Next(s, Submit(id, first, length, true));
    var s2 := Next(s1, Enter(id));
    RunCons(s2, Stop, []);
    RunCons(s1, Enter(id), [Stop] + []);
    RunCons(s, Submit(id, first, length, true), [Enter(id)] + ([Stop] + []));
  }

  lemma RunCons(s: State, step: Step, rest: seq<Step>)
    ensures Run(s, [step] + rest) == Run(Next(s, step), rest)
  {
    assert ([step] + rest)[1..] == rest;
  }
}

// The driver itself: its methods are the steps above.
module RequestDriver {
  import opened Options
  import opened RequestQueues
  import P = RequestProtocol

  class Driver {
    var running: bool
    var requests: map<nat, Request>
    // Accepted requests on their way into tx_queue
    var entering: set<nat>
    const txQueue: Queue
    const rxQueue: Queue
    var txHeld: Option<nat>
    var rxHeld: Option<nat>
    // What the kernel has been told
    ghost var completed: seq<nat>
    ghost var log: seq<P.Transfer>

    ghost function State(): P.State
      reads this, txQueue, rxQueue
    {
      P.State(running, requests, entering, txQueue.items, rxQueue.items, txHeld, rxHeld, completed, log)
    }

    ghost predicate Valid()
      reads this, txQueue, rxQueue
    {
      txQueue != rxQueue && P.Inv(State(), multiset{})
    }

    constructor ()
      ensures Valid() && State() == P.INITIAL
    {
      running, requests, entering, txHeld, rxHeld := false, map[], {}, None, None;
      txQueue := new Queue();
      rxQueue := new Queue();
      completed, log := [], [];
      new;
      P.InitialInv();
    }

    // The next sectors of a request are reported; the result is true while some remain.
    method EndRequest(id: nat, count: nat, ok: bool) returns (more: bool)
      requires id in requests
      modifies this
      ensures State() == P.EndRequest(old(State()), id, count, ok)
      ensures more == (requests[id].done < requests[id].length)
    {
      var r := requests[id];
      log := log + [P.Transfer(id, r.Sector(), count, ok)];
      requests := requests[id := r.(done := r.done + count)];
      more := r.done + count < r.length;
      if !more {
        completed := completed + [id];
      }
    }

    // The running flag: dnbd_startup, and the end of dnbd_shutdown
    method SetRunning(on: bool)
      requires Valid()
      modifies this
      ensures Valid() && State() == P.Apply(old(State()), if on then P.Start else P.Stop)
    {
      P.StepInv(State(), if on then P.Start else P.Stop);
      running := on;
    }

    method DoRequest(id: nat, first: nat, length: nat, read: bool)
      requires Valid() && id !in requests && length > 0
      modifies this, txQueue
      ensures Valid()
      ensures State() == P.Next(P.Apply(old(State()), P.Submit(id, first, length, read)), P.Enter(id))
    {
      var accepted := Submit(id, first, length, read);
      if accepted {
        Enter(id);
      }
    }

    // Up to the point where the lock is given up
    method Submit(id: nat, first: nat, length: nat, read: bool) returns (accepted: bool)
      requires Valid() && id !in requests && length > 0
      modifies this
      ensures Valid() && State() == P.Apply(old(State()), P.Submit(id, first, length, read))
      ensures accepted == (id in entering) == (old(running) && read)
    {
      P.StepInv(State(), P.Submit(id, first, length, read));
      assert P.PlacedOnce(State(), multiset{}, id);
      requests := requests[id := Request(first, length, 0, 0)];
      if !running || !read {
        var more := EndRequest(id, length, false);
        return false;
      }
      entering := entering + {id};
      return true;
    }

    method Enter(id: nat)
      requires Valid() && id in entering
      modifies this, txQueue
      ensures Valid() && State() == P.Apply(old(State()), P.Enter(id))
    {
      P.StepInv(State(), P.Enter(id));
      entering := entering - {id};
      txQueue.Enqueue(id);
    }

    // tx_loop takes the oldest request.
    method TakeForSending()
      requires Valid() && txHeld.None?
      modifies this, txQueue
      ensures Valid() && State() == P.Next(old(State()), P.TxTake)
    {
      P.StepInv(State(), P.TxTake);
      txHeld := txQueue.Dequeue();
    }

    // The cache had the first sectors of the request.
    method FinishFromCache(cached: nat)
      requires Valid() && P.Enabled(State(), P.TxCached(cached))
      modifies this, txQueue
      ensures Valid() && State() == P.Apply(old(State()), P.TxCached(cached))
    {
      P.StepInv(State(), P.TxCached(cached));
      var id := txHeld.value;
      txHeld := None;
      var more := EndRequest(id, cached, true);
      if more {
        txQueue.Enqueue(id);
      }
    }

    // The request waits for its reply, before it is sent.
    method WaitForReply() returns (id: nat)
      requires Valid() && txHeld.Some?
      modifies this, rxQueue
      ensures Valid() && State() == P.Apply(old(State()), P.TxWait) && id in requests
    {
      P.StepInv(State(), P.TxWait);
      id := txHeld.value;
      assert P.PlacedOnce(State(), multiset{}, id);
      rxQueue.Enqueue(id);
      txHeld := None;
    }

    method SendRequest(id: nat, now: nat)
      requires Valid() && id in requests
      modifies this
      ensures Valid() && State() == P.Apply(old(State()), P.TxSent(id, now))
    {
      P.StepInv(State(), P.TxSent(id, now));
      requests := requests[id := requests[id].(start := now)];
    }

    // recv_reply looks for the request of a reply.
    method TakeForReply(pos: nat)
      requires Valid() && rxHeld.None?
      modifies this, rxQueue
      ensures Valid() && State() == P.Apply(old(State()), P.RxTake(pos))
    {
      P.StepInv(State(), P.RxTake(pos));
      rxHeld := rxQueue.DequeueHandle(requests, pos);
    }

    method FinishReply(nsect: nat)
      requires Valid() && P.Enabled(State(), P.RxEnd(nsect))
      modifies this, txQueue
      ensures Valid() && State() == P.Apply(old(State()), P.RxEnd(nsect))
    {
      P.StepInv(State(), P.RxEnd(nsect));
      var id := rxHeld.value;
      rxHeld := None;
      var more := EndRequest(id, nsect, true);
      if more {
        txQueue.Enqueue(id);
      }
    }

    method Retransmit(timeout: nat)
      requires Valid()
      modifies txQueue, rxQueue
      ensures Valid() && State() == P.Apply(old(State()), P.Rexmit(timeout))
    {
      ghost var s := State();
      P.RexmitInv(s, timeout);
      var requeued := Requeue(txQueue, rxQueue, requests, timeout);
      assert State() == P.Requeued(s, timeout);
    }

    // The state without the requests of one of the queues
    ghost function Without(sending: bool): P.State
      reads this, txQueue, rxQueue
    {
      if sending then State().(tx := []) else State().(rx := [])
    }

    // Every request in the queue fails.
    method ClearQueue(q: Queue, sending: bool)
      requires q == (if sending then txQueue else rxQueue) && txQueue != rxQueue
      requires forall id :: id in q.items ==> id in requests
      modifies this, q
      ensures State() == P.FailAll(old(Without(sending)), old(q.items))
    {
      ghost var s, all := Without(sending), q.items;
      var r := q.Dequeue();
      while r.Some?
        invariant r.None? ==> q.items == []
        invariant forall id :: id in Pending(q.items, r) ==> id in requests
        invariant P.FailAll(Without(sending), Pending(q.items, r)) == P.FailAll(s, all)
        decreases |Pending(q.items, r)|
      {
        FailLast(r.value, sending, q.items);
        r := q.Dequeue();
      }
      P.NothingToFail(Without(sending));
    }

    method FailLast(id: nat, sending: bool, ghost rest: seq<nat>)
      requires id in requests && forall j :: j in rest ==> j in requests
      modifies this
      ensures requests.Keys == old(requests.Keys)
      ensures P.FailAll(Without(sending), rest) == old(P.FailAll(Without(sending), rest + [id]))
    {
      ghost var t := Without(sending);
      assert (rest + [id])[..|rest|] == rest;
      var r := requests[id];
      var more := EndRequest(id, if r.done <= r.length then r.length - r.done else 0, false);
      assert Without(sending) == P.EndRequest(t, id, P.Remaining(r), false);
    }

    method ClearQueues()
      requires Valid() && P.Enabled(State(), P.Clear)
      modifies this, txQueue, rxQueue
      ensures Valid() && State() == P.Apply(old(State()), P.Clear)
    {
      P.StepInv(State(), P.Clear);
      ghost var s := State();
      P.FailAllKeys(s.(rx := []), s.rx);
      ClearQueue(rxQueue, false);
      ClearQueue(txQueue, true);
    }
  }
}
