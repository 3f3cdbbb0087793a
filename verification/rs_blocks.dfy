// The interleaving of the blocks of a Data Matrix symbol: every block takes each
// blocks-th symbol of the data and of the check symbols.

module ReedSolomonBlocks {
  import opened Arithmetic
  import opened GaloisField
  import opened ReedSolomonCode
  import opened ReedSolomonEncoder
  import opened Sequences

  // Every step-th symbol from a position up to a limit
  function Word(m: map<nat, Byte>, from: nat, step: nat, limit: nat): seq<Byte>
    requires step > 0 && forall n :: from <= n < limit ==> n in m
    decreases limit - from
  {
    if from >= limit then [] else [m[from]] + Word(m, from + step, step, limit)
  }

  lemma {:induction false} WordFrame(m: map<nat, Byte>, k: map<nat, Byte>, from: nat, step: nat, limit: nat)
    requires step > 0 && forall n :: from <= n < limit ==> n in m && n in k && m[n] == k[n]
    ensures Word(m, from, step, limit) == Word(k, from, step, limit)
    decreases limit - from
  {
    if from < limit {
      WordFrame(m, k, from + step, step, limit);
    }
  }

  // Position n of the check symbols: the block it belongs to, and its row in that block.
  function Col(n: nat, blocks: nat): (c: nat)
    requires blocks > 0
    ensures c < blocks
  {
    if n < blocks then n else Col(n - blocks, blocks)
  }

  function Row(n: nat, blocks: nat): nat
    requires blocks > 0
  {
    if n < blocks then 0 else 1 + Row(n - blocks, blocks)
  }

  // The check symbol at position n of the check symbols comes from this place of enc:
  // the symbols come back lowest first.
  function Source(n: nat, blocks: nat, rsblock: nat): int
    requires blocks > 0
  {
    rsblock - 1 - Row(n, blocks)
  }

  lemma {:induction false} Coordinates(b: nat, t: nat, blocks: nat)
    requires b < blocks
    ensures Col(b + t * blocks, blocks) == b && Row(b + t * blocks, blocks) == t
  {
    if t > 0 {
      Coordinates(b, t - 1, blocks);
      assert b + t * blocks == (b + (t - 1) * blocks) + blocks;
    }
  }

  // Within one period after n only n is in the same block.
  lemma {:induction false} NextInBlock(n: nat, x: nat, blocks: nat)
    requires blocks > 0 && Col(n, blocks) == Col(x, blocks) && n <= x < n + blocks
    ensures x == n
  {
    if n >= blocks {
      NextInBlock(n - blocks, x - blocks, blocks);
    }
  }

  // Position k holds what it should once the positions of block b below n are written:
  // its check symbol, written once, or what was there before.
  predicate Mine(k: nat, bytes: nat, b: nat, blocks: nat, n: nat)
    requires blocks > 0
  {
    k >= bytes && k - bytes < n && Col(k - bytes, blocks) == b
  }

  predicate Holds(x: Byte, enc: seq<Byte>, n: nat, blocks: nat)
    requires blocks > 0
  {
    0 <= Source(n, blocks, |enc|) < |enc| && x == enc[Source(n, blocks, |enc|)]
  }

  predicate Untouched(before: map<nat, Byte>, now: map<nat, Byte>, k: nat) {
    (k in now <==> k in before) && (k in before ==> now[k] == before[k])
  }

  predicate PlacedAt(
    before: map<nat, Byte>, now: map<nat, Byte>, writes: multiset<nat>,
    enc: seq<Byte>, bytes: nat, b: nat, blocks: nat, n: nat, k: nat)
    requires blocks > 0
  {
    if Mine(k, bytes, b, blocks, n) then
      k in now && Holds(now[k], enc, k - bytes, blocks) && writes[k] == 1
    else
      Untouched(before, now, k) && writes[k] == 0
  }

  ghost predicate Placed(
    before: map<nat, Byte>, now: map<nat, Byte>, writes: multiset<nat>,
    enc: seq<Byte>, bytes: nat, b: nat, blocks: nat, n: nat)
    requires blocks > 0
  {
    forall k: nat :: PlacedAt(before, now, writes, enc, bytes, b, blocks, n, k)
  }

  lemma PlacedStepAt(
    before: map<nat, Byte>, now: map<nat, Byte>, writes: multiset<nat>,
    enc: seq<Byte>, bytes: nat, b: nat, blocks: nat, n: nat, k: nat, x: Byte)
    requires blocks > 0 && Col(n, blocks) == b && Holds(x, enc, n, blocks)
    requires PlacedAt(before, now, writes, enc, bytes, b, blocks, n, k)
    ensures PlacedAt(before, now[bytes + n := x], writes + multiset{bytes + n}, enc, bytes, b, blocks, n + blocks, k)
  {
    if Mine(k, bytes, b, blocks, n + blocks) && k - bytes >= n {
      NextInBlock(n, k - bytes, blocks);
    }
  }

  lemma PlacedStep(
    before: map<nat, Byte>, now: map<nat, Byte>, writes: multiset<nat>,
    enc: seq<Byte>, bytes: nat, b: nat, blocks: nat, n: nat, x: Byte)
    requires blocks > 0 && Col(n, blocks) == b && Holds(x, enc, n, blocks)
    requires Placed(before, now, writes, enc, bytes, b, blocks, n)
    ensures Placed(before, now[bytes + n := x], writes + multiset{bytes + n}, enc, bytes, b, blocks, n + blocks)
  {
    var after, w, next := now[bytes + n := x], writes + multiset{bytes + n}, n + blocks;
    forall k: nat ensures PlacedAt(before, after, w, enc, bytes, b, blocks, next, k) {
      assert PlacedAt(before, now, writes, enc, bytes, b, blocks, n, k);
      PlacedStepAt(before, now, writes, enc, bytes, b, blocks, n, k, x);
    }
  }

  // The last row ends where the columns end.
  lemma PlacedEnd(
    before: map<nat, Byte>, now: map<nat, Byte>, writes: multiset<nat>,
    enc: seq<Byte>, bytes: nat, b: nat, blocks: nat, limit: nat)
    requires b < blocks && limit == |enc| * blocks
    requires Placed(before, now, writes, enc, bytes, b, blocks, b + limit)
    ensures Placed(before, now, writes, enc, bytes, b, blocks, limit)
  {
    forall k: nat ensures PlacedAt(before, now, writes, enc, bytes, b, blocks, limit, k) {
      assert PlacedAt(before, now, writes, enc, bytes, b, blocks, b + limit, k);
      if k - bytes >= limit && k - bytes < b + limit {
        Coordinates(k - bytes - limit, |enc|, blocks);
      }
    }
  }

  // The check symbols of block b, lowest first
  ghost function Check(m: map<nat, Byte>, b: nat, blocks: nat, bytes: nat, rsblock: nat): (r: seq<Byte>)
    requires blocks > 0 && rsblock > 0 && forall n :: n < bytes ==> n in m
    ensures |r| == rsblock
  {
    Remainder(Word(m, b, blocks, bytes), Generator(rsblock, 1))
  }

  // The first b blocks have their check symbols, each position written once.
  predicate Ours(k: nat, bytes: nat, blocks: nat, limit: nat, b: nat)
    requires blocks > 0
  {
    k >= bytes && k - bytes < limit && Col(k - bytes, blocks) < b
  }

  predicate DoneAt(
    before: map<nat, Byte>, now: map<nat, Byte>, writes: multiset<nat>,
    checks: seq<seq<Byte>>, bytes: nat, blocks: nat, limit: nat, b: nat, k: nat)
    requires blocks > 0 && b <= blocks == |checks|
  {
    if Ours(k, bytes, blocks, limit, b) then
      k in now && Holds(now[k], checks[Col(k - bytes, blocks)], k - bytes, blocks) && writes[k] == 1
    else
      Untouched(before, now, k) && writes[k] == 0
  }

  ghost predicate Done(
    before: map<nat, Byte>, now: map<nat, Byte>, writes: multiset<nat>,
    checks: seq<seq<Byte>>, bytes: nat, blocks: nat, limit: nat, b: nat)
    requires blocks > 0 && b <= blocks == |checks|
  {
    forall k: nat :: DoneAt(before, now, writes, checks, bytes, blocks, limit, b, k)
  }

  lemma OneBlockMore(
    before: map<nat, Byte>, mid: map<nat, Byte>, now: map<nat, Byte>, w: multiset<nat>, v: multiset<nat>,
    checks: seq<seq<Byte>>, bytes: nat, blocks: nat, limit: nat, b: nat)
    requires blocks > 0 && b < blocks == |checks|
    requires Done(before, mid, w, checks, bytes, blocks, limit, b)
    requires Placed(mid, now, v, checks[b], bytes, b, blocks, limit)
    ensures Done(before, now, w + v, checks, bytes, blocks, limit, b + 1)
  {
    var all, next := w + v, b + 1;
    forall k: nat ensures DoneAt(before, now, all, checks, bytes, blocks, limit, next, k) {
      assert DoneAt(before, mid, w, checks, bytes, blocks, limit, b, k);
      assert PlacedAt(mid, now, v, checks[b], bytes, b, blocks, limit, k);
    }
  }

  // Read back from row t on, the check symbols are those of the block in reverse.
  lemma {:induction false} ReadBack(
    before: map<nat, Byte>, now: map<nat, Byte>, writes: multiset<nat>,
    checks: seq<seq<Byte>>, bytes: nat, blocks: nat, limit: nat, b: nat, t: nat)
    requires b < blocks == |checks| && t <= |checks[b]| && limit == |checks[b]| * blocks
    requires Done(before, now, writes, checks, bytes, blocks, limit, blocks)
    requires forall n :: bytes <= n < bytes + limit ==> n in now
    ensures Word(now, bytes + (b + t * blocks), blocks, bytes + limit) == Reverse(checks[b][..|checks[b]| - t])
    decreases |checks[b]| - t
  {
    var enc := checks[b];
    if t == |enc| {
      assert enc[..0] == [];
    } else {
      ReadBack(before, now, writes, checks, bytes, blocks, limit, b, t + 1);
      Below(t, b, blocks, |enc|);
      Coordinates(b, t, blocks);
      var n := b + t * blocks;
      assert DoneAt(before, now, writes, checks, bytes, blocks, limit, blocks, bytes + n);
      assert n + blocks == b + (t + 1) * blocks;
      ReverseTake(enc, |enc| - t);
    }
  }

  lemma Below(t: nat, b: nat, blocks: nat, rsblock: nat)
    requires t < rsblock && b < blocks
    ensures b + t * blocks < rsblock * blocks
  {
    MulMonotone(t + 1, rsblock, blocks);
    assert (t + 1) * blocks == t * blocks + blocks;
  }

  lemma ReverseTake(p: seq<Byte>, n: nat)
    requires 0 < n <= |p|
    ensures Reverse(p[..n]) == [p[n - 1]] + Reverse(p[..n - 1])
  {
    assert p[..n] == p[..n - 1] + [p[n - 1]];
    ReverseSnoc(p[..n - 1], p[n - 1]);
  }

  lemma DataKept(
    before: map<nat, Byte>, now: map<nat, Byte>, writes: multiset<nat>, checks: seq<seq<Byte>>,
    bytes: nat, blocks: nat, limit: nat, done: nat, b: nat)
    requires 0 < blocks == |checks| && done <= blocks
    requires forall n :: n < bytes ==> n in before
    requires Done(before, now, writes, checks, bytes, blocks, limit, done)
    ensures forall n :: n < bytes ==> n in now
    ensures Word(now, b, blocks, bytes) == Word(before, b, blocks, bytes)
  {
    forall n: nat | n < bytes ensures n in now && now[n] == before[n] {
      assert DoneAt(before, now, writes, checks, bytes, blocks, limit, done, n);
    }
    WordFrame(before, now, b, blocks, bytes);
  }

  // Every block, data and check symbols read together, is a codeword.
  lemma BlocksAreCodewords(
    before: map<nat, Byte>, now: map<nat, Byte>, writes: multiset<nat>, checks: seq<seq<Byte>>,
    bytes: nat, blocks: nat, rsblock: nat, limit: nat, b: nat)
    requires rsblock > 0 && b < blocks == |checks| && limit == rsblock * blocks
    requires forall n :: n < bytes ==> n in before
    requires checks[b] == Check(before, b, blocks, bytes, rsblock)
    requires Done(before, now, writes, checks, bytes, blocks, limit, blocks)
    requires forall n :: 0 <= n < bytes + limit ==> n in now
    ensures IsCodeword(Word(now, b, blocks, bytes) + Word(now, bytes + b, blocks, bytes + limit), 1, rsblock)
  {
    DataKept(before, now, writes, checks, bytes, blocks, limit, blocks, b);
    ReadBack(before, now, writes, checks, bytes, blocks, limit, b, 0);
    assert checks[b][..rsblock] == checks[b];
    EncodedIsCodeword(Word(before, b, blocks, bytes), rsblock, 1);
  }

  // What Rs promises, from what its loop has done
  ghost predicate Appended(
    before: map<nat, Byte>, now: map<nat, Byte>, writes: multiset<nat>,
    bytes: nat, blocks: nat, rsblock: nat, limit: nat)
  {
    && (forall k: nat :: k in now <==> k in before || bytes <= k < bytes + limit)
    && (forall k: nat :: k in before && !(bytes <= k < bytes + limit) ==> now[k] == before[k])
    && (forall k: nat :: writes[k] == if bytes <= k < bytes + limit then 1 else 0)
    && (forall n: nat :: n < bytes + limit ==> n in now)
    && forall b: nat :: b < blocks ==>
         IsCodeword(Word(now, b, blocks, bytes) + Word(now, bytes + b, blocks, bytes + limit), 1, rsblock)
  }

  lemma AllDone(
    before: map<nat, Byte>, now: map<nat, Byte>, writes: multiset<nat>, checks: seq<seq<Byte>>,
    bytes: nat, blocks: nat, rsblock: nat, limit: nat)
    requires rsblock > 0 && 0 < blocks == |checks| && limit == rsblock * blocks
    requires forall n :: n < bytes ==> n in before
    requires forall b :: 0 <= b < blocks ==> checks[b] == Check(before, b, blocks, bytes, rsblock)
    requires Done(before, now, writes, checks, bytes, blocks, limit, blocks)
    ensures Appended(before, now, writes, bytes, blocks, rsblock, limit)
  {
    forall k: nat
      ensures if bytes <= k < bytes + limit then k in now && writes[k] == 1
              else Untouched(before, now, k) && writes[k] == 0
    {
      assert DoneAt(before, now, writes, checks, bytes, blocks, limit, blocks, k);
    }
    forall b: nat | b < blocks
      ensures IsCodeword(Word(now, b, blocks, bytes) + Word(now, bytes + b, blocks, bytes + limit), 1, rsblock)
    {
      BlocksAreCodewords(before, now, writes, checks, bytes, blocks, rsblock, limit, b);
    }
  }

  class Semacode {
    var binary: map<nat, Byte>
    // How often each position has been assigned since the last call of Rs
    ghost var writes: multiset<nat>

    // The check symbols of every block are appended, interleaved like the data.
    method Rs(bytes: nat, datablock: nat, rsblock: nat)
      requires datablock > 0 && rsblock > 0
      requires forall n :: n < bytes ==> n in binary
      modifies this
      ensures var blocks := (bytes + 2) / datablock;
        Appended(old(binary), binary, writes, bytes, blocks, rsblock, rsblock * blocks)
    {
      var blocks := (bytes + 2) / datablock;
      writes := multiset{};
      if blocks == 0 {
        return;
      }
      var rs := new ReedSolomon(rsblock);
      ghost var limit := rsblock * blocks;
      ghost var before := binary;
      ghost var checks := seq(blocks, (c: nat) => if forall n :: n < bytes ==> n in before
                                                  then Check(before, c, blocks, bytes, rsblock) else []);
      var b := 0;
      while b < blocks
        invariant 0 <= b <= blocks && rs.Valid() && rs.rslen == rsblock
        invariant Done(old(binary), binary, writes, checks, bytes, blocks, limit, b)
      {
        AppendBlock(rs, before, checks, bytes, b, blocks, rsblock);
        b := b + 1;
      }
      AllDone(old(binary), binary, writes, checks, bytes, blocks, rsblock, limit);
    }

    method AppendBlock(
      rs: ReedSolomon, ghost before: map<nat, Byte>, ghost checks: seq<seq<Byte>>,
      bytes: nat, b: nat, blocks: nat, rsblock: nat)
      requires b < blocks == |checks| && rs.Valid() && rs.rslen == rsblock
      requires forall n :: n < bytes ==> n in before
      requires checks[b] == Check(before, b, blocks, bytes, rsblock)
      requires Done(before, binary, writes, checks, bytes, blocks, rsblock * blocks, b)
      modifies this
      ensures rs.Valid() && rs.rslen == rsblock
      ensures Done(before, binary, writes, checks, bytes, blocks, rsblock * blocks, b + 1)
    {
      ghost var mid, w := binary, writes;
      DataKept(before, mid, w, checks, bytes, blocks, rsblock * blocks, b, b);
      var buf := Gather(b, bytes, blocks);
      var enc := rs.EncodeArray(buf);
      Place(enc[..], bytes, b, blocks, rsblock);
      OneBlockMore(before, mid, binary, w, writes - w, checks, bytes, blocks, rsblock * blocks, b);
      assert writes == w + (writes - w);
    }

    method Gather(b: nat, bytes: nat, blocks: nat) returns (buf: seq<Byte>)
      requires blocks > 0 && forall n :: n < bytes ==> n in binary
      ensures buf == Word(binary, b, blocks, bytes)
    {
      buf := [];
      var n := b;
      while n < bytes
        invariant Word(binary, b, blocks, bytes) == buf + Word(binary, n, blocks, bytes)
      {
        buf := buf + [binary[n]];
        n := n + blocks;
      }
    }

    method Place(enc: seq<Byte>, bytes: nat, b: nat, blocks: nat, rsblock: nat)
      requires blocks > 0 && |enc| == rsblock > 0 && b < blocks
      modifies this
      ensures writes >= old(writes)
      ensures Placed(old(binary), binary, writes - old(writes), enc, bytes, b, blocks, rsblock * blocks)
    {
      var p: int := rsblock - 1;
      var n := b;
      ghost var t := 0;
      ghost var mine: multiset<nat> := multiset{};
      Coordinates(b, 0, blocks);
      while n < rsblock * blocks
        invariant n == b + t * blocks && 0 <= t <= rsblock && p == rsblock - 1 - t
        invariant writes == old(writes) + mine
        invariant Placed(old(binary), binary, mine, enc, bytes, b, blocks, n)
        decreases rsblock - t
      {
        Within(b, t, blocks, rsblock);
        Coordinates(b, t, blocks);
        PlacedStep(old(binary), binary, mine, enc, bytes, b, blocks, n, enc[p]);
        Write(bytes + n, enc[p]);
        mine := mine + multiset{bytes + n};
        p := p - 1;
        n := n + blocks;
        t := t + 1;
      }
      if t < rsblock {
        Below(t, b, blocks, rsblock);
      }
      PlacedEnd(old(binary), binary, mine, enc, bytes, b, blocks, rsblock * blocks);
      assert writes - old(writes) == mine;
    }

    method Write(k: nat, x: Byte)
      modifies this
      ensures binary == old(binary)[k := x] && writes == old(writes) + multiset{k}
    {
      binary := binary[k := x];
      writes := writes + multiset{k};
    }
  }

  lemma Within(b: nat, t: nat, blocks: nat, rsblock: nat)
    requires b < blocks && b + t * blocks < rsblock * blocks
    ensures t < rsblock
  {
    if t >= rsblock {
      MulMonotone(rsblock, t, blocks);
    }
  }
}
