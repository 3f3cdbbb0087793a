// What single steps of the block driver do to a request, and what that means for runs.

module RequestSteps {
  import opened Options
  import opened RequestQueues
  import opened RequestProtocol
  import Sequences

  // Exactly count more sectors of id are reported, those that follow what was done before.
  ghost predicate Reports(s: State, t: State, id: nat, count: nat, ok: bool) {
    id in s.requests &&
    var r := s.requests[id];
    && t.requests == s.requests[id := Request(r.first, r.length, r.done + count, r.start)]
    && t.log == s.log + [Transfer(id, r.first + r.done, count, ok)]
  }

  // While sectors are missing the request is the new head of tx_queue, else it is completed.
  ghost predicate GoesOn(s: State, t: State, id: nat, count: nat) {
    id in s.requests &&
    if s.requests[id].done + count < s.requests[id].length then t.tx == [id] + s.tx && t.completed == s.completed
    else t.tx == s.tx && t.completed == s.completed + [id]
  }

  predicate SameOutside(s: State, t: State) {
    s.running == t.running && s.entering == t.entering && s.rx == t.rx
  }

  // The sectors a reply has brought are read.
  lemma ReplyReports(s: State, count: nat)
    requires Inv(s, multiset{}) && Enabled(s, RxEnd(count))
    ensures var id, t := s.rxHeld.value, Apply(s, RxEnd(count));
      && Reports(s, t, id, count, true) && GoesOn(s, t, id, count)
      && SameOutside(s, t) && t.rxHeld == None && t.txHeld == s.txHeld
  {
  }

  // So are those found in the cache.
  lemma CacheReports(s: State, count: nat)
    requires Inv(s, multiset{}) && Enabled(s, TxCached(count))
    ensures var id, t := s.txHeld.value, Apply(s, TxCached(count));
      && Reports(s, t, id, count, true) && GoesOn(s, t, id, count)
      && SameOutside(s, t) && t.txHeld == None && t.rxHeld == s.rxHeld
  {
  }

  // A request that is not accepted fails as a whole; another one is only noted.
  lemma SubmitReports(s: State, id: nat, first: nat, length: nat, read: bool)
    requires Enabled(s, Submit(id, first, length, read))
    ensures var t := Apply(s, Submit(id, first, length, read));
      && s.tx == t.tx && s.rx == t.rx && s.txHeld == t.txHeld && s.rxHeld == t.rxHeld && s.running == t.running
      && if s.running && read then
           && t.requests == s.requests[id := Request(first, length, 0, 0)] && t.entering == s.entering + {id}
           && t.log == s.log && t.completed == s.completed
         else
           && t.requests == s.requests[id := Request(first, length, length, 0)] && t.entering == s.entering
           && t.log == s.log + [Transfer(id, first, length, false)] && t.completed == s.completed + [id]
  {
  }

  // The receiver finds a request exactly if one that waits in rx_queue has its next sector
  // at pos: the first such from the head, which leaves the queue.
  lemma ReplyMatches(s: State, pos: nat)
    requires Enabled(s, RxTake(pos))
    ensures var t := Apply(s, RxTake(pos));
      && (t.rxHeld.Some? <==> exists i :: 0 <= i < |s.rx| && NextAt(s, s.rx[i], pos))
      && t == s.(rxHeld := t.rxHeld, rx := t.rx)
      && (t.rxHeld.None? ==> t == s)
      && (t.rxHeld.Some? ==> NextAt(s, t.rxHeld.value, pos) && exists i :: TakenAt(s, t, i, pos))
  {
    var i := Match(s.rx, s.requests, pos);
    if i < |s.rx| {
      assert NextAt(s, s.rx[i], pos);
      assert TakenAt(s, Apply(s, RxTake(pos)), i, pos);
    }
  }

  predicate NextAt(s: State, id: nat, pos: nat) {
    id in s.requests && (s.requests[id].first + s.requests[id].done) * 512 == pos
  }

  ghost predicate TakenAt(s: State, t: State, i: nat, pos: nat) {
    && i < |s.rx| && t.rxHeld == Some(s.rx[i]) && t.rx == s.rx[..i] + s.rx[i + 1..]
    && forall j :: 0 <= j < i ==> !NextAt(s, s.rx[j], pos)
  }

  // A request that waits for its reply goes back to tx_queue exactly if it was sent before
  // the timeout.
  lemma RexmitIff(s: State, timeout: nat, id: nat)
    requires Inv(s, multiset{}) && id in s.rx && id in s.requests
    ensures var t := Apply(s, Rexmit(timeout));
      && (id in t.tx <==> s.requests[id].start < timeout)
      && (id in t.rx <==> s.requests[id].start >= timeout)
  {
    var t := Apply(s, Rexmit(timeout));
    LateSplit(s.rx, s.requests, timeout);
    OnePlace(s, id);
    if s.requests[id].start < timeout {
      LateRequestsReturn(s, timeout, id);
      StepInv(s, Rexmit(timeout));
      OnePlace(t, id);
    } else {
      OnTimeStays(s.rx, s.requests, timeout, id);
      StepInv(s, Rexmit(timeout));
      OnePlace(t, id);
    }
  }

  lemma OnePlace(s: State, id: nat)
    requires Inv(s, multiset{})
    ensures !(id in s.tx && id in s.rx)
  {
    assert PlacedOnce(s, multiset{}, id);
    assert id in s.tx ==> multiset(s.tx)[id] > 0;
    assert id in s.rx ==> multiset(s.rx)[id] > 0;
  }

  lemma OnTimeStays(q: seq<nat>, table: map<nat, Request>, timeout: nat, id: nat)
    requires id in q && id in table && table[id].start >= timeout
    ensures id in OnTime(q, table, timeout)
  {
    LateSplit(q, table, timeout);
    assert multiset(q)[id] > 0;
    assert !TimedOut(id, table, timeout);
  }

  // The others keep their place behind those that come back.
  lemma RexmitKeeps(s: State, timeout: nat)
    ensures var t := Apply(s, Rexmit(timeout));
      t == s.(tx := t.tx, rx := t.rx) && EndsWith(t.tx, s.tx)
  {
    EndsWithBehind(Sequences.Reverse(Late(s.rx, s.requests, timeout)), s.tx);
  }

  predicate EndsWith(r: seq<nat>, q: seq<nat>) {
    |q| <= |r| && r[|r| - |q|..] == q
  }

  lemma EndsWithBehind(xs: seq<nat>, q: seq<nat>)
    ensures EndsWith(xs + q, q) && EndsWith(q, q)
  {
  }

  function Failure(id: nat, r: Request): Transfer {
    Transfer(id, r.first + r.done, if r.done <= r.length then r.length - r.done else 0, false)
  }

  // The transfers by which the requests of a queue fail, the one at the tail first.
  function Failures(requests: map<nat, Request>, q: seq<nat>): seq<Transfer>
    requires forall id :: id in q ==> id in requests
  {
    if q == [] then [] else [Failure(q[|q| - 1], requests[q[|q| - 1]])] + Failures(requests, q[..|q| - 1])
  }

  predicate NoRepeat(q: seq<nat>) {
    q == [] || (q[|q| - 1] !in q[..|q| - 1] && NoRepeat(q[..|q| - 1]))
  }

  lemma {:induction false} OnceNoRepeat(q: seq<nat>)
    requires forall id :: multiset(q)[id] <= 1
    ensures NoRepeat(q)
  {
    if q != [] {
      var rest, id := q[..|q| - 1], q[|q| - 1];
      assert q == rest + [id];
      assert multiset(q)[id] == multiset(rest)[id] + 1;
      assert forall j :: multiset(rest)[j] <= multiset(q)[j];
      OnceNoRepeat(rest);
    }
  }

  // One request fails; the others are left alone.
  lemma FailOne(s: State, id: nat)
    requires id in s.requests
    ensures var r, t := s.requests[id], EndRequest(s, id, Remaining(s.requests[id]), false);
      && t.log == s.log + [Failure(id, r)]
      && t.requests.Keys == s.requests.Keys
      && forall j :: j in s.requests && j != id ==> t.requests[j] == s.requests[j]
  {
  }

  lemma {:induction false} FailAllReports(s: State, q: seq<nat>)
    requires NoRepeat(q) && forall id :: id in q ==> id in s.requests
    ensures FailAll(s, q).log == s.log + Failures(s.requests, q)
    decreases |q|
  {
    if q != [] {
      var rest, id := q[..|q| - 1], q[|q| - 1];
      var t := EndRequest(s, id, Remaining(s.requests[id]), false);
      FailOne(s, id);
      FailAllReports(t, rest);
      SameFailures(s.requests, t.requests, rest);
      FailuresSnoc(s.log, Failure(id, s.requests[id]), Failures(s.requests, rest));
    }
  }

  lemma FailuresSnoc(log: seq<Transfer>, t: Transfer, more: seq<Transfer>)
    ensures log + [t] + more == log + ([t] + more)
  {
  }

  lemma {:induction false} FailAllOthers(s: State, q: seq<nat>, id: nat)
    requires (forall j :: j in q ==> j in s.requests) && id in s.requests && id !in q
    ensures id in FailAll(s, q).requests && FailAll(s, q).requests[id] == s.requests[id]
    decreases |q|
  {
    if q != [] {
      FailOne(s, q[|q| - 1]);
      FailAllOthers(EndRequest(s, q[|q| - 1], Remaining(s.requests[q[|q| - 1]]), false), q[..|q| - 1], id);
    }
  }

  lemma {:induction false} SameFailures(a: map<nat, Request>, b: map<nat, Request>, q: seq<nat>)
    requires forall id :: id in q ==> id in a && id in b && a[id] == b[id]
    ensures Failures(a, q) == Failures(b, q)
  {
    if q != [] {
      SameFailures(a, b, q[..|q| - 1]);
    }
  }

  // At the end the rest of every request in a queue fails, those of rx_queue first.
  lemma ClearReports(s: State)
    requires Inv(s, multiset{}) && Enabled(s, Clear)
    ensures Apply(s, Clear).log == s.log + Failures(s.requests, s.rx) + Failures(s.requests, s.tx)
  {
    var t := s.(rx := []);
    PlacedApart(s);
    FailAllReports(t, s.rx);
    FailAllKeys(t, s.rx);
    var u := FailAll(t, s.rx).(tx := []);
    forall id | id in s.tx
      ensures u.requests[id] == s.requests[id]
    {
      OnePlace(s, id);
      FailAllOthers(t, s.rx, id);
    }
    FailAllReports(u, s.tx);
    SameFailures(s.requests, u.requests, s.tx);
  }

  lemma PlacedApart(s: State)
    requires Inv(s, multiset{})
    ensures NoRepeat(s.rx) && NoRepeat(s.tx)
  {
    forall id: nat
      ensures multiset(s.rx)[id] <= 1 && multiset(s.tx)[id] <= 1
    {
      assert PlacedOnce(s, multiset{}, id);
    }
    OnceNoRepeat(s.rx);
    OnceNoRepeat(s.tx);
  }

  // Order ----------------------------------------------------------------------------

  // a entered the queue before b.
  ghost predicate Before(q: seq<nat>, a: nat, b: nat) {
    exists i, j :: 0 <= i < j < |q| && q[i] == b && q[j] == a
  }

  // What was in tx_queue stays there, at the tail, unless it is taken or cleared.
  lemma TxGrows(s: State, step: Step)
    requires !step.Clear? && step != TxTake
    ensures EndsWith(Next(s, step).tx, s.tx)
  {
    EndsWithBehind([], s.tx);
    if Enabled(s, step) {
      match step
      case Enter(id) => EndsWithBehind([id], s.tx);
      case TxCached(count) => EndsWithBehind([s.txHeld.value], s.tx);
      case RxEnd(count) => EndsWithBehind([s.rxHeld.value], s.tx);
      case Rexmit(timeout) => RexmitKeeps(s, timeout);
      case _ =>
    }
  }

  lemma BeforeSuffix(q: seq<nat>, r: seq<nat>, a: nat, b: nat)
    requires EndsWith(r, q) && Before(q, a, b)
    ensures Before(r, a, b)
  {
    var i, j :| 0 <= i < j < |q| && q[i] == b && q[j] == a;
    var n := |r| - |q|;
    assert r[n..][i] == r[n + i] && r[n..][j] == r[n + j];
  }

  lemma BeforePrefix(q: seq<nat>, a: nat, b: nat, last: nat)
    requires Before(q + [last], a, b)
    ensures Before(q, a, b) || last == a
  {
    var i, j :| 0 <= i < j < |q + [last]| && (q + [last])[i] == b && (q + [last])[j] == a;
    if j < |q| {
      assert q[i] == b && q[j] == a;
    }
  }

  // tx_queue is first in, first out: whatever a step does, a stays before b, or is the one
  // that is taken, unless the queue is cleared.
  lemma FirstInFirstOut(s: State, step: Step, a: nat, b: nat)
    requires Before(s.tx, a, b) && !step.Clear?
    ensures var t := Next(s, step);
      Before(t.tx, a, b) || (step == TxTake && t.txHeld == Some(a) && s.tx == t.tx + [a])
  {
    if step == TxTake {
      TakenInOrder(s, Next(s, TxTake), a, b);
    } else {
      TxGrows(s, step);
      BeforeSuffix(s.tx, Next(s, step).tx, a, b);
    }
  }

  lemma TakenInOrder(s: State, t: State, a: nat, b: nat)
    requires Before(s.tx, a, b) && t == Next(s, TxTake)
    ensures Before(t.tx, a, b) || (t.txHeld == Some(a) && s.tx == t.tx + [a])
  {
    TakesOldest(s);
    if s != t {
      BeforePrefix(t.tx, a, b, t.txHeld.value);
    }
  }

  // Requests that come back do so in reverse: the one that waited longer for its reply is
  // sent later.
  lemma RexmitReverses(s: State, timeout: nat, a: nat, b: nat)
    requires Before(s.rx, a, b) && TimedOut(a, s.requests, timeout) && TimedOut(b, s.requests, timeout)
    ensures Before(Apply(s, Rexmit(timeout)).tx, b, a)
  {
    var late := Late(s.rx, s.requests, timeout);
    LateOrder(s.rx, s.requests, timeout, a, b);
    ReverseOrder(late, a, b);
    BeforeFront(Sequences.Reverse(late), s.tx, b, a);
  }

  lemma BeforeFront(q: seq<nat>, r: seq<nat>, a: nat, b: nat)
    requires Before(q, a, b)
    ensures Before(q + r, a, b)
  {
    var i, j :| 0 <= i < j < |q| && q[i] == b && q[j] == a;
    assert (q + r)[i] == b && (q + r)[j] == a;
  }

  lemma {:induction false} LateOrder(q: seq<nat>, table: map<nat, Request>, timeout: nat, a: nat, b: nat)
    requires Before(q, a, b) && TimedOut(a, table, timeout) && TimedOut(b, table, timeout)
    ensures Before(Late(q, table, timeout), a, b)
  {
    var rest := q[1..];
    var late := Late(rest, table, timeout);
    var i, j :| 0 <= i < j < |q| && q[i] == b && q[j] == a;
    assert rest[j - 1] == a;
    if i == 0 {
      LateMember(rest, table, timeout, a);
      var k :| 0 <= k < |late| && late[k] == a;
      assert ([b] + late)[0] == b && ([b] + late)[k + 1] == a;
    } else {
      assert rest[i - 1] == b;
      LateOrder(rest, table, timeout, a, b);
      BeforeBehind(if TimedOut(q[0], table, timeout) then [q[0]] else [], late, a, b);
    }
  }

  lemma BeforeBehind(xs: seq<nat>, q: seq<nat>, a: nat, b: nat)
    requires Before(q, a, b)
    ensures Before(xs + q, a, b)
  {
    var i, j :| 0 <= i < j < |q| && q[i] == b && q[j] == a;
    assert (xs + q)[|xs| + i] == b && (xs + q)[|xs| + j] == a;
  }

  lemma {:induction false} ReverseOrder(q: seq<nat>, a: nat, b: nat)
    requires Before(q, a, b)
    ensures Before(Sequences.Reverse(q), b, a)
  {
    var rest := q[1..];
    var back := Sequences.Reverse(rest);
    var i, j :| 0 <= i < j < |q| && q[i] == b && q[j] == a;
    assert rest[j - 1] == a;
    if i == 0 {
      ReverseMember(rest, a);
      var k :| 0 <= k < |back| && back[k] == a;
      assert (back + [b])[k] == a && (back + [b])[|back|] == b;
    } else {
      assert rest[i - 1] == b;
      ReverseOrder(rest, a, b);
      BeforeFront(back, [q[0]], b, a);
    }
  }

  // The sending thread takes the request at the tail.
  lemma TakesOldest(s: State)
    ensures var t := Next(s, TxTake);
      if s.txHeld.None? && s.tx != [] then
        t.txHeld.Some? && s.tx == t.tx + [t.txHeld.value] && t == s.(tx := t.tx, txHeld := t.txHeld)
      else t == s
  {
  }

  // Every request enters at the head: when it is handed in, when sectors are missing, and
  // when it has waited too long.
  lemma EntersAtHead(s: State, id: nat)
    requires Enabled(s, Enter(id))
    ensures Apply(s, Enter(id)) == s.(tx := [id] + s.tx, entering := s.entering - {id})
  {
  }

  lemma WaitsAtHead(s: State)
    requires Enabled(s, TxWait)
    ensures Apply(s, TxWait) == s.(txHeld := None, rx := [s.txHeld.value] + s.rx)
  {
  }

  // Sending stamps the request with the time, by which it is found late.
  lemma SentStamps(s: State, id: nat, now: nat)
    requires Enabled(s, TxSent(id, now))
    ensures var r := s.requests[id];
      Apply(s, TxSent(id, now)) == s.(requests := s.requests[id := Request(r.first, r.length, r.done, now)])
  {
  }

  // Conservation ---------------------------------------------------------------------

  // How many sectors of a request were reported as read
  function ReadSectors(log: seq<Transfer>, id: nat): nat {
    if log == [] then 0
    else
      var t := log[|log| - 1];
      ReadSectors(log[..|log| - 1], id) + if t.id == id && t.ok then t.count else 0
  }

  // How many sectors of it the step brings, in a reply or from the cache
  function Brings(s: State, step: Step, id: nat): nat {
    if !Enabled(s, step) then 0
    else
      match step
      case RxEnd(count) => if s.rxHeld == Some(id) then count else 0
      case TxCached(count) => if s.txHeld == Some(id) then count else 0
      case _ => 0
  }

  function Brought(s: State, steps: seq<Step>, id: nat): nat
    decreases |steps|
  {
    if steps == [] then 0 else Brings(s, steps[0], id) + Brought(Next(s, steps[0]), steps[1..], id)
  }

  lemma {:induction false} ReadAppend(log: seq<Transfer>, more: seq<Transfer>, id: nat)
    ensures ReadSectors(log + more, id) == ReadSectors(log, id) + ReadSectors(more, id)
  {
    if more == [] {
      assert log + more == log;
    } else {
      ReadAppend(log, more[..|more| - 1], id);
      assert (log + more)[..|log + more| - 1] == log + more[..|more| - 1];
    }
  }

  lemma {:induction false} NothingRead(requests: map<nat, Request>, q: seq<nat>, id: nat)
    requires forall j :: j in q ==> j in requests
    ensures ReadSectors(Failures(requests, q), id) == 0
  {
    if q != [] {
      var rest, t := q[..|q| - 1], Failure(q[|q| - 1], requests[q[|q| - 1]]);
      NothingRead(requests, rest, id);
      ReadAppend([t], Failures(requests, rest), id);
      assert [t][..0] == [];
    }
  }

  lemma OneMore(log: seq<Transfer>, t: Transfer, id: nat)
    ensures ReadSectors(log + [t], id) == ReadSectors(log, id) + if t.id == id && t.ok then t.count else 0
  {
    assert (log + [t])[..|log|] == log;
  }

  lemma StepReads(s: State, step: Step, id: nat)
    requires Inv(s, multiset{})
    ensures ReadSectors(Next(s, step).log, id) == ReadSectors(s.log, id) + Brings(s, step, id)
  {
    if Enabled(s, step) {
      match step
      case Clear =>
        ClearReports(s);
        ReadAppend(s.log + Failures(s.requests, s.rx), Failures(s.requests, s.tx), id);
        ReadAppend(s.log, Failures(s.requests, s.rx), id);
        NothingRead(s.requests, s.rx, id);
        NothingRead(s.requests, s.tx, id);
      case Submit(j, first, length, read) =>
        SubmitReports(s, j, first, length, read);
        OneMore(s.log, Transfer(j, first, length, false), id);
      case RxEnd(count) =>
        var r := s.requests[s.rxHeld.value];
        ReplyReports(s, count);
        OneMore(s.log, Transfer(s.rxHeld.value, r.first + r.done, count, true), id);
      case TxCached(count) =>
        var r := s.requests[s.txHeld.value];
        CacheReports(s, count);
        OneMore(s.log, Transfer(s.txHeld.value, r.first + r.done, count, true), id);
      case _ =>
    }
  }

  // In every run exactly the sectors that replies and the cache have brought for a request
  // are reported to the kernel as read.
  lemma {:induction false} ReadIsBrought(s: State, steps: seq<Step>, id: nat)
    requires Inv(s, multiset{})
    ensures ReadSectors(Run(s, steps).log, id) == ReadSectors(s.log, id) + Brought(s, steps, id)
    decreases |steps|
  {
    if steps != [] {
      StepReads(s, steps[0], id);
      StepInv(s, steps[0]);
      ReadIsBrought(Next(s, steps[0]), steps[1..], id);
    }
  }
}
