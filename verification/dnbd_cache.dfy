// The block cache of the network block device: a search tree for the lookup, a doubly
// linked list in the order of use, and a file of slots for the blocks.

module SearchTrees {
  // A plain binary search tree; the balancing of the kernel's trees is left out.
  datatype Tree<N> = Leaf | Node(left: Tree<N>, key: nat, value: N, right: Tree<N>)

  function Keys<N>(t: Tree<N>): set<nat> {
    if t.Leaf? then {} else Keys(t.left) + {t.key} + Keys(t.right)
  }

  predicate Ordered<N>(t: Tree<N>) {
    t.Node? ==>
      && Ordered(t.left) && Ordered(t.right)
      && (forall k :: k in Keys(t.left) ==> k < t.key)
      && (forall k :: k in Keys(t.right) ==> t.key < k)
  }

  // The value stored under a key
  function Get<N>(t: Tree<N>, k: nat): N
    requires Ordered(t) && k in Keys(t)
  {
    assert k in Keys(t.left) || k == t.key || k in Keys(t.right);
    if k < t.key then Get(t.left, k) else if k > t.key then Get(t.right, k) else t.value
  }

  // A new node takes the place of the leaf where the search for its key ends.
  function Link<N>(t: Tree<N>, k: nat, v: N): Tree<N> {
    if t.Leaf? then Node(Leaf, k, v, Leaf)
    else if k < t.key then t.(left := Link(t.left, k, v))
    else t.(right := Link(t.right, k, v))
  }

  lemma {:induction false} LinkCorrect<N>(t: Tree<N>, k: nat, v: N)
    requires Ordered(t) && k !in Keys(t)
    ensures Keys(Link(t, k, v)) == Keys(t) + {k} && Ordered(Link(t, k, v))
    ensures Get(Link(t, k, v), k) == v
    ensures forall j :: j in Keys(t) ==> Get(Link(t, k, v), j) == Get(t, j)
  {
    if t.Node? {
      if k < t.key {
        LinkCorrect(t.left, k, v);
      } else {
        LinkCorrect(t.right, k, v);
      }
    }
  }

  // The leftmost node, and the tree without it
  function Least<N>(t: Tree<N>): (m: (nat, N))
    requires t.Node?
  {
    if t.left.Leaf? then (t.key, t.value) else Least(t.left)
  }

  function WithoutLeast<N>(t: Tree<N>): Tree<N>
    requires t.Node?
  {
    if t.left.Leaf? then t.right else t.(left := WithoutLeast(t.left))
  }

  lemma {:induction false} LeastCorrect<N>(t: Tree<N>)
    requires t.Node? && Ordered(t)
    ensures Least(t).0 in Keys(t) && Get(t, Least(t).0) == Least(t).1
    ensures forall j :: j in Keys(t) ==> Least(t).0 <= j
    ensures Ordered(WithoutLeast(t)) && Keys(WithoutLeast(t)) == Keys(t) - {Least(t).0}
    ensures forall j :: j in Keys(WithoutLeast(t)) ==> Get(WithoutLeast(t), j) == Get(t, j)
  {
    if t.left.Node? {
      LeastCorrect(t.left);
    }
  }

  // A node with two children is replaced by its successor.
  function Erase<N>(t: Tree<N>, k: nat): Tree<N> {
    if t.Leaf? then t
    else if k < t.key then t.(left := Erase(t.left, k))
    else if k > t.key then t.(right := Erase(t.right, k))
    else if t.left.Leaf? then t.right
    else if t.right.Leaf? then t.left
    else Node(t.left, Least(t.right).0, Least(t.right).1, WithoutLeast(t.right))
  }

  lemma {:induction false} EraseCorrect<N>(t: Tree<N>, k: nat)
    requires Ordered(t)
    ensures Ordered(Erase(t, k)) && Keys(Erase(t, k)) == Keys(t) - {k}
    ensures forall j :: j in Keys(t) - {k} ==> Get(Erase(t, k), j) == Get(t, j)
  {
    if t.Node? {
      if k < t.key {
        EraseCorrect(t.left, k);
      } else if k > t.key {
        EraseCorrect(t.right, k);
      } else if t.left.Node? && t.right.Node? {
        LeastCorrect(t.right);
      }
    }
  }
}

// What the cache holds, as a list of sectors and blocks, the last used first.
module CacheContents {
  type Block = seq<int>

  datatype Entry = Entry(key: nat, block: Block)

  predicate Distinct<T(==)>(s: seq<T>) {
    s == [] || (s[0] !in s[1..] && Distinct(s[1..]))
  }

  lemma {:induction false} DistinctIff<T>(s: seq<T>)
    ensures Distinct(s) <==> forall i, j :: 0 <= i < j < |s| ==> s[i] != s[j]
  {
    if s != [] {
      DistinctIff(s[1..]);
      if Distinct(s) {
        forall i, j | 0 <= i < j < |s| ensures s[i] != s[j] {
          if i > 0 {
            assert s[1..][i - 1] != s[1..][j - 1];
          } else {
            assert s[1..][j - 1] in s[1..];
          }
        }
      } else if Distinct(s[1..]) {
        var j :| 0 <= j < |s[1..]| && s[1..][j] == s[0];
        assert s[0] == s[j + 1];
      } else {
        var i, j :| 0 <= i < j < |s[1..]| && s[1..][i] == s[1..][j];
        assert s[i + 1] == s[j + 1];
      }
    }
  }

  lemma DistinctWithout<T>(s: seq<T>, i: nat)
    requires Distinct(s) && i < |s|
    ensures Distinct(s[..i] + s[i + 1..]) && s[i] !in s[..i] + s[i + 1..]
  {
    DistinctIff(s);
    DistinctIff(s[..i] + s[i + 1..]);
  }

  function KeysOf(es: seq<Entry>): (ks: seq<nat>)
    ensures |ks| == |es|
  {
    if es == [] then [] else [es[0].key] + KeysOf(es[1..])
  }

  lemma {:induction false} KeysAt(es: seq<Entry>)
    ensures forall i :: 0 <= i < |es| ==> KeysOf(es)[i] == es[i].key
  {
    if es != [] {
      KeysAt(es[1..]);
    }
  }

  function IndexOf(ks: seq<nat>, k: nat): (i: nat)
    ensures i <= |ks| && (i < |ks| ==> ks[i] == k) && forall j :: 0 <= j < i ==> ks[j] != k
  {
    if ks == [] || ks[0] == k then 0 else 1 + IndexOf(ks[1..], k)
  }

  function ToFront<T>(s: seq<T>, i: nat): (r: seq<T>)
    requires i < |s|
    ensures |r| == |s|
  {
    [s[i]] + s[..i] + s[i + 1..]
  }

  // A sector that is present moves to the front and keeps its block; a new one enters
  // there and, when the cache is full, the last one leaves.
  function Insert(es: seq<Entry>, k: nat, b: Block, max: nat): seq<Entry>
    requires max > 0 && |es| <= max
  {
    var i := IndexOf(KeysOf(es), k);
    if i < |es| then ToFront(es, i)
    else [Entry(k, b)] + if |es| == max then es[..max - 1] else es
  }

  function Lookup(es: seq<Entry>, k: nat): Block
    requires k in KeysOf(es)
  {
    es[IndexOf(KeysOf(es), k)].block
  }

  // Whole runs ----------------------------------------------------------------------

  function Run(ops: seq<Entry>, max: nat): (es: seq<Entry>)
    requires max > 0
    ensures |es| <= max
  {
    if ops == [] then []
    else
      var op := ops[|ops| - 1];
      Insert(Run(ops[..|ops| - 1], max), op.key, op.block, max)
  }

  function Remove(ks: seq<nat>, k: nat): seq<nat> {
    if ks == [] then [] else if ks[0] == k then ks[1..] else [ks[0]] + Remove(ks[1..], k)
  }

  // The sectors of a run without repetition, the last inserted first.
  function Recent(ops: seq<Entry>): seq<nat> {
    if ops == [] then [] else
      var k := ops[|ops| - 1].key;
      [k] + Remove(Recent(ops[..|ops| - 1]), k)
  }

  function Take<T>(s: seq<T>, n: nat): seq<T> {
    if |s| <= n then s else s[..n]
  }

  lemma {:induction false} RemoveAt(ks: seq<nat>, k: nat)
    ensures var i := IndexOf(ks, k);
      Remove(ks, k) == if i == |ks| then ks else ks[..i] + ks[i + 1..]
  {
    if ks != [] && ks[0] != k {
      RemoveAt(ks[1..], k);
      var i := IndexOf(ks[1..], k);
      assert IndexOf(ks, k) == i + 1;
      assert ks == [ks[0]] + ks[1..];
      if i < |ks[1..]| {
        assert ks[..i + 1] == [ks[0]] + ks[1..][..i] && ks[i + 2..] == ks[1..][i + 1..];
      }
    }
  }

  // No sector twice
  lemma {:induction false} RecentDistinct(ops: seq<Entry>)
    ensures Distinct(Recent(ops))
  {
    if ops != [] {
      var rest, k := ops[..|ops| - 1], ops[|ops| - 1].key;
      RecentDistinct(rest);
      RemoveDistinct(Recent(rest), k, k);
      assert ([k] + Remove(Recent(rest), k))[1..] == Remove(Recent(rest), k);
    }
  }

  // The sectors inserted, and no other
  lemma {:induction false} RecentMembers(ops: seq<Entry>, k: nat)
    ensures k in Recent(ops) <==> exists i :: 0 <= i < |ops| && ops[i].key == k
  {
    if ops != [] {
      var rest, op := ops[..|ops| - 1], ops[|ops| - 1];
      RecentMembers(rest, k);
      RecentNext(rest, op, k);
      assert ops == rest + [op];
      if k in Recent(rest) {
        var i :| 0 <= i < |rest| && rest[i].key == k;
        assert ops[i].key == k;
      }
    }
  }

  lemma RecentNext(rest: seq<Entry>, op: Entry, k: nat)
    ensures k in Recent(rest + [op]) <==> k == op.key || k in Recent(rest)
  {
    assert (rest + [op])[..|rest|] == rest;
    RecentDistinct(rest);
    RemoveDistinct(Recent(rest), op.key, k);
  }

  lemma {:induction false} RemoveDistinct(ks: seq<nat>, k: nat, j: nat)
    requires Distinct(ks)
    ensures Distinct(Remove(ks, k)) && k !in Remove(ks, k)
    ensures j != k ==> (j in Remove(ks, k) <==> j in ks)
    ensures forall x :: x in Remove(ks, k) ==> x in ks
  {
    if ks != [] && ks[0] != k {
      RemoveDistinct(ks[1..], k, j);
      assert Remove(ks, k)[1..] == Remove(ks[1..], k);
    }
  }

  lemma IndexOfIs(ks: seq<nat>, k: nat, i: nat)
    requires i < |ks| && ks[i] == k && forall j :: 0 <= j < i ==> ks[j] != k
    ensures IndexOf(ks, k) == i
  {
  }

  lemma IndexOfNone(ks: seq<nat>, k: nat)
    requires forall j :: 0 <= j < |ks| ==> ks[j] != k
    ensures IndexOf(ks, k) == |ks|
  {
  }

  // A sector that is present
  lemma InsertHit(es: seq<Entry>, k: nat, b: Block, max: nat, i: nat)
    requires max > 0 && |es| <= max && i < |es| && IndexOf(KeysOf(es), k) == i
    ensures KeysOf(Insert(es, k, b, max)) == ToFront(KeysOf(es), i)
  {
    var e := ToFront(es, i);
    KeysAt(es);
    KeysAt(e);
    assert KeysOf(e) == ToFront(KeysOf(es), i);
  }

  lemma KeysTake(es: seq<Entry>, n: nat)
    ensures KeysOf(Take(es, n)) == Take(KeysOf(es), n)
  {
    KeysAt(es);
    KeysAt(Take(es, n));
  }

  // A sector that is not
  lemma InsertMiss(es: seq<Entry>, k: nat, b: Block, max: nat)
    requires max > 0 && |es| <= max && IndexOf(KeysOf(es), k) == |es|
    ensures KeysOf(Insert(es, k, b, max)) == [k] + Take(KeysOf(es), max - 1)
  {
    var e := Take(es, max - 1);
    assert Insert(es, k, b, max) == [Entry(k, b)] + e;
    assert ([Entry(k, b)] + e)[1..] == e;
    KeysTake(es, max - 1);
  }

  // One insertion: the keys are again the most recent ones, cut off at the size.
  lemma InsertKeys(es: seq<Entry>, r: seq<nat>, k: nat, b: Block, max: nat)
    requires max > 0 && |es| <= max && KeysOf(es) == Take(r, max)
    ensures KeysOf(Insert(es, k, b, max)) == Take([k] + Remove(r, k), max)
  {
    var ks, i := KeysOf(es), IndexOf(r, k);
    RemoveAt(r, k);
    if i < |ks| {
      IndexOfIs(ks, k, i);
      InsertHit(es, k, b, max, i);
      MovedFront(r, max, i);
    } else {
      IndexOfNone(ks, k);
      InsertMiss(es, k, b, max);
      EnteredFront(r, k, max, i);
    }
  }

  lemma MovedFront(r: seq<nat>, max: nat, i: nat)
    requires i < |Take(r, max)|
    ensures ToFront(Take(r, max), i) == Take([r[i]] + (r[..i] + r[i + 1..]), max)
  {
  }

  lemma EnteredFront(r: seq<nat>, k: nat, max: nat, i: nat)
    requires |Take(r, max)| <= i <= |r| && max > 0
    ensures [k] + Take(Take(r, max), max - 1)
         == Take([k] + if i == |r| then r else r[..i] + r[i + 1..], max)
  {
  }

  // After any run the cache holds exactly the most recently inserted sectors.
  lemma {:induction false} RunKeepsRecent(ops: seq<Entry>, max: nat)
    requires max > 0
    ensures KeysOf(Run(ops, max)) == Take(Recent(ops), max)
  {
    if ops != [] {
      var op := ops[|ops| - 1];
      RunKeepsRecent(ops[..|ops| - 1], max);
      InsertKeys(Run(ops[..|ops| - 1], max), Recent(ops[..|ops| - 1]), op.key, op.block, max);
    }
  }

  // What is served after an insertion: a hit keeps the old block.
  lemma InsertServes(es: seq<Entry>, k: nat, b: Block, max: nat)
    requires max > 0 && |es| <= max
    ensures k in KeysOf(Insert(es, k, b, max))
    ensures Lookup(Insert(es, k, b, max), k) == if k in KeysOf(es) then Lookup(es, k) else b
  {
    KeysAt(es);
    LookupAt(Insert(es, k, b, max), k, 0);
  }

  // So the block given to an insertion is served exactly when the sector was not cached, or
  // its cached block is the same.
  lemma InsertServesIff(es: seq<Entry>, k: nat, b: Block, max: nat)
    requires max > 0 && |es| <= max
    ensures k in KeysOf(Insert(es, k, b, max))
    ensures Lookup(Insert(es, k, b, max), k) == b <==> (k in KeysOf(es) ==> Lookup(es, k) == b)
  {
    InsertServes(es, k, b, max);
  }

  lemma LookupAt(es: seq<Entry>, k: nat, i: nat)
    requires i < |es| && es[i].key == k && forall j :: 0 <= j < i ==> es[j].key != k
    ensures k in KeysOf(es) && Lookup(es, k) == es[i].block
  {
    KeysAt(es);
    assert KeysOf(es)[i] == k;
    IndexOfIs(KeysOf(es), k, i);
  }

  lemma {:induction false} LookupConcat(a: seq<Entry>, b: seq<Entry>, k: nat)
    ensures k in KeysOf(a + b) <==> k in KeysOf(a) || k in KeysOf(b)
    ensures k in KeysOf(a + b) ==> Lookup(a + b, k) == if k in KeysOf(a) then Lookup(a, k) else Lookup(b, k)
  {
    if a == [] {
      assert a + b == b;
    } else {
      LookupConcat(a[1..], b, k);
      assert (a + b)[1..] == a[1..] + b;
      LookupFirst(a, k);
      LookupFirst(a + b, k);
    }
  }

  lemma LookupFirst(es: seq<Entry>, k: nat)
    requires es != []
    ensures k in KeysOf(es) <==> es[0].key == k || k in KeysOf(es[1..])
    ensures k in KeysOf(es) ==> Lookup(es, k) == if es[0].key == k then es[0].block else Lookup(es[1..], k)
  {
    assert KeysOf(es)[1..] == KeysOf(es[1..]);
  }

  // Where another entry stands does not matter.
  lemma LookupMoved(front: seq<Entry>, x: Entry, back: seq<Entry>, j: nat)
    requires x.key != j && j in KeysOf([x] + (front + back))
    ensures j in KeysOf(front + ([x] + back))
    ensures Lookup(front + ([x] + back), j) == Lookup([x] + (front + back), j)
  {
    LookupOther(x, front + back, j);
    LookupConcat(front, back, j);
    LookupConcat(front, [x] + back, j);
    if j in KeysOf(back) {
      LookupConcat([x], back, j);
      LookupOther(x, back, j);
    }
  }

  lemma LookupOther(x: Entry, es: seq<Entry>, j: nat)
    requires x.key != j && j in KeysOf([x] + es)
    ensures j in KeysOf(es) && Lookup([x] + es, j) == Lookup(es, j)
  {
    assert ([x] + es)[1..] == es;
    LookupFirst([x] + es, j);
  }

  lemma InsertKeepsOthers(es: seq<Entry>, k: nat, b: Block, max: nat, r: seq<Entry>, j: nat)
    requires max > 0 && |es| <= max && r == Insert(es, k, b, max) && j != k && j in KeysOf(r)
    ensures j in KeysOf(es) && Lookup(es, j) == Lookup(r, j)
  {
    var i := IndexOf(KeysOf(es), k);
    if i < |es| {
      KeyAt(es, i);
      HitKeepsOthers(es, i, r, j);
    } else {
      LookupOther(Entry(k, b), Take(es, max - 1), j);
      LookupTake(es, max - 1, j);
    }
  }

  lemma KeyAt(es: seq<Entry>, i: nat)
    requires i < |es|
    ensures KeysOf(es)[i] == es[i].key
  {
    KeysAt(es);
  }

  lemma HitKeepsOthers(es: seq<Entry>, i: nat, r: seq<Entry>, j: nat)
    requires i < |es| && r == ToFront(es, i) && es[i].key != j && j in KeysOf(r)
    ensures j in KeysOf(es) && Lookup(es, j) == Lookup(r, j)
  {
    assert r == [es[i]] + (es[..i] + es[i + 1..]);
    LookupMoved(es[..i], es[i], es[i + 1..], j);
    assert es == es[..i] + ([es[i]] + es[i + 1..]);
  }

  lemma LookupTake(es: seq<Entry>, n: nat, j: nat)
    requires j in KeysOf(Take(es, n))
    ensures j in KeysOf(es) && Lookup(es, j) == Lookup(Take(es, n), j)
  {
    if n < |es| {
      assert es == es[..n] + es[n..];
      LookupConcat(es[..n], es[n..], j);
    }
  }

  lemma InsertServesOld(es: seq<Entry>, op: Entry, max: nat, r: seq<Entry>, k: nat)
    requires max > 0 && |es| <= max && r == Insert(es, op.key, op.block, max) && k in KeysOf(r)
    ensures if k in KeysOf(es) then Lookup(r, k) == Lookup(es, k) else op.key == k && Lookup(r, k) == op.block
  {
    if op.key == k {
      InsertServes(es, k, op.block, max);
    } else {
      InsertKeepsOthers(es, op.key, op.block, max, r, k);
    }
  }

  // The sector is cached after the first n insertions.
  predicate CachedAfter(ops: seq<Entry>, n: nat, max: nat, k: nat)
    requires n <= |ops|
  {
    k in Take(Recent(ops[..n]), max)
  }

  // A search after the first n insertions finds b.
  predicate Serves(ops: seq<Entry>, n: nat, max: nat, k: nat, b: Block)
    requires max > 0 && n <= |ops|
  {
    var es := Run(ops[..n], max);
    k in KeysOf(es) && Lookup(es, k) == b
  }

  lemma ServesEntered(ops: seq<Entry>, n: nat, max: nat, k: nat)
    requires max > 0 && n < |ops| && !CachedAfter(ops, n, max, k) && CachedAfter(ops, n + 1, max, k)
    ensures ops[n].key == k && Serves(ops, n + 1, max, k, ops[n].block)
  {
    assert ops[..n + 1][..n] == ops[..n];
    RunKeepsRecent(ops[..n], max);
    RunKeepsRecent(ops[..n + 1], max);
    InsertServesOld(Run(ops[..n], max), ops[n], max, Run(ops[..n + 1], max), k);
  }

  lemma ServesStill(ops: seq<Entry>, n: nat, max: nat, k: nat, b: Block)
    requires max > 0 && n < |ops| && Serves(ops, n, max, k, b) && CachedAfter(ops, n + 1, max, k)
    ensures Serves(ops, n + 1, max, k, b)
  {
    assert ops[..n + 1][..n] == ops[..n];
    RunKeepsRecent(ops[..n + 1], max);
    InsertServesOld(Run(ops[..n], max), ops[n], max, Run(ops[..n + 1], max), k);
  }

  // The sector entered the cache with insertion i and stayed there up to n.
  ghost predicate CachedSince(ops: seq<Entry>, i: nat, n: nat, max: nat, k: nat)
    requires i < n <= |ops|
  {
    !CachedAfter(ops, i, max, k) && forall j :: i < j <= n ==> CachedAfter(ops, j, max, k)
  }

  // The block served is the one the sector entered the cache with, whatever later
  // insertions wanted to store.
  lemma {:induction false} RunServes(ops: seq<Entry>, i: nat, n: nat, max: nat, k: nat)
    requires max > 0 && i < n <= |ops| && CachedSince(ops, i, n, max, k)
    ensures ops[i].key == k && Serves(ops, n, max, k, ops[i].block)
    decreases n
  {
    if i + 1 == n {
      ServesEntered(ops, i, max, k);
    } else {
      RunServes(ops, i, n - 1, max, k);
      ServesStill(ops, n - 1, max, k, ops[i].block);
    }
  }

  // So it is the block that the device holds now exactly if the sector entered with it.
  lemma RunServesIff(ops: seq<Entry>, i: nat, n: nat, max: nat, k: nat, current: Block)
    requires max > 0 && i < n <= |ops| && CachedSince(ops, i, n, max, k)
    ensures Serves(ops, n, max, k, current) <==> ops[i].block == current
  {
    RunServes(ops, i, n, max, k);
  }

  // A stale block: the device changed between two insertions of a sector.
  lemma RunServesStale(k: nat, before: Block, after: Block, max: nat)
    requires max > 0
    ensures Serves([Entry(k, before), Entry(k, after)], 2, max, k, before)
  {
    var first, ops := [Entry(k, before)], [Entry(k, before), Entry(k, after)];
    assert first[..0] == [] && ops[..1] == first && ops[..2] == ops;
    InsertServes([], k, before, max);
    InsertServes(Run(first, max), k, after, max);
    assert Run(ops, max) == Insert(Run(first, max), k, after, max);
    assert Run(first, max) == Insert([], k, before, max);
  }

  ghost predicate FromDevice(es: seq<Entry>, device: nat -> Block) {
    forall e :: e in es ==> e.block == device(e.key)
  }

  // If every insertion stored the block of the device, every block found is that block.
  lemma RunServesDevice(ops: seq<Entry>, max: nat, device: nat -> Block, k: nat)
    requires max > 0 && FromDevice(ops, device)
    ensures k in KeysOf(Run(ops, max)) <==> k in Take(Recent(ops), max)
    ensures k in KeysOf(Run(ops, max)) ==> Lookup(Run(ops, max), k) == device(k)
  {
    RunKeepsRecent(ops, max);
    RunFromDevice(ops, max, device);
    if k in KeysOf(Run(ops, max)) {
      LookupIn(Run(ops, max), k);
    }
  }

  lemma {:induction false} RunFromDevice(ops: seq<Entry>, max: nat, device: nat -> Block)
    requires max > 0 && FromDevice(ops, device)
    ensures FromDevice(Run(ops, max), device)
  {
    if ops != [] {
      var rest, op := ops[..|ops| - 1], ops[|ops| - 1];
      assert op in ops && forall e :: e in rest ==> e in ops;
      RunFromDevice(rest, max, device);
      InsertFromDevice(Run(rest, max), op, max, device);
    }
  }

  lemma InsertFromDevice(es: seq<Entry>, op: Entry, max: nat, device: nat -> Block)
    requires max > 0 && |es| <= max && FromDevice(es, device) && op.block == device(op.key)
    ensures FromDevice(Insert(es, op.key, op.block, max), device)
  {
    var r := Insert(es, op.key, op.block, max);
    forall e | e in r ensures e == op || e in es {
    }
  }

  lemma LookupIn(es: seq<Entry>, k: nat)
    requires k in KeysOf(es)
    ensures Entry(k, Lookup(es, k)) in es
  {
    var i := IndexOf(KeysOf(es), k);
    assert es[i] in es;
  }
}

module BlockCache {
  import opened Options
  import opened SearchTrees
  import opened CacheContents

  class CacheNode {
    var key: nat
    var data: nat
    var prev: CacheNode?
    var next: CacheNode?

    constructor () {
      key, data, prev, next := 0, 0, null, null;
    }
  }

  // What a slot of the cache file holds; nothing where nothing was written.
  function Slot(file: map<nat, Block>, slot: nat): Block {
    if slot in file then file[slot] else []
  }

  predicate Below(slots: seq<nat>, used: nat) {
    slots == [] || (slots[0] < used && Below(slots[1..], used))
  }

  lemma {:induction false} BelowIff(slots: seq<nat>, used: nat)
    ensures Below(slots, used) <==> forall i :: 0 <= i < |slots| ==> slots[i] < used
  {
    if slots != [] {
      BelowIff(slots[1..], used);
      assert forall i :: 0 < i < |slots| ==> slots[i] == slots[1..][i - 1];
    }
  }

  // The slots in use are 0 .. used - 1, each once.
  predicate SlotsFit(slots: seq<nat>, used: nat) {
    |slots| == used && Distinct(slots) && Below(slots, used)
  }

  // Under each key the tree holds the node at the same place of the list.
  predicate Matches(root: Tree<CacheNode>, keys: seq<nat>, list: seq<CacheNode>)
    requires Ordered(root)
  {
    && |keys| == |list|
    && (keys == [] ||
        (keys[0] in Keys(root) && Get(root, keys[0]) == list[0] && Matches(root, keys[1..], list[1..])))
  }

  lemma {:induction false} MatchesIff(root: Tree<CacheNode>, keys: seq<nat>, list: seq<CacheNode>)
    requires Ordered(root)
    ensures Matches(root, keys, list) <==>
      |keys| == |list| && forall i :: 0 <= i < |keys| ==> keys[i] in Keys(root) && Get(root, keys[i]) == list[i]
  {
    if keys != [] && list != [] {
      MatchesIff(root, keys[1..], list[1..]);
      assert forall i :: 0 < i < |keys| ==> keys[i] == keys[1..][i - 1];
      assert forall i :: 0 < i < |list| ==> list[i] == list[1..][i - 1];
    }
  }

  // The tree finds the node of every key in the list, and no other.
  ghost predicate TreeFits(root: Tree<CacheNode>, keys: seq<nat>, list: seq<CacheNode>) {
    && Ordered(root) && Distinct(keys) && Matches(root, keys, list)
    && Keys(root) == set k | k in keys
  }

  // A slot below used that none of the others has
  predicate SlotFree(slots: seq<nat>, used: nat, slot: nat) {
    |slots| + 1 == used && Distinct(slots) && slot < used && slot !in slots && Below(slots, used)
  }

  // Both links of the i-th node of the list
  ghost predicate LinkAt(list: seq<CacheNode>, i: nat)
    requires i < |list|
    reads list
  {
    && list[i].prev == (if i == 0 then null else list[i - 1])
    && list[i].next == (if i == |list| - 1 then null else list[i + 1])
  }

  // Both fields of the i-th node of the list
  ghost predicate FieldsAt(list: seq<CacheNode>, keys: seq<nat>, slots: seq<nat>, i: nat)
    requires i < |list| == |keys| == |slots|
    reads list
  {
    list[i].key == keys[i] && list[i].data == slots[i]
  }

  class Cache {
    var root: Tree<CacheNode>
    var head: CacheNode?
    var tail: CacheNode?
    var usedBlocks: nat
    const maxBlocks: nat
    var file: map<nat, Block>
    ghost var list: seq<CacheNode>
    ghost var keys: seq<nat>
    ghost var slots: seq<nat>

    ghost predicate Links()
      reads this`head, this`tail, this`list, list
    {
      && Distinct(list)
      && head == (if list == [] then null else list[0])
      && tail == (if list == [] then null else list[|list| - 1])
      && forall i :: 0 <= i < |list| ==> LinkAt(list, i)
    }

    ghost predicate Fields()
      reads this`list, this`keys, this`slots, list
    {
      && |list| == |keys| == |slots|
      && forall i :: 0 <= i < |list| ==> FieldsAt(list, keys, slots, i)
    }

    ghost predicate Valid()
      reads this`root, this`head, this`tail, this`usedBlocks, this`file
      reads this`list, this`keys, this`slots, list
    {
      && Links() && Fields()
      && SlotsFit(slots, usedBlocks) && TreeFits(root, keys, list)
      && 0 < maxBlocks && usedBlocks <= maxBlocks
    }

    ghost function Contents(): (es: seq<Entry>)
      requires |slots| == |keys|
      reads this`keys, this`slots, this`file
    {
      Pairs(keys, slots, file)
    }

    constructor (max: nat)
      requires max > 0
      ensures Valid() && Contents() == [] && maxBlocks == max && list == []
    {
      root, head, tail := Leaf, null, null;
      usedBlocks, maxBlocks, file := 0, max, map[];
      list, keys, slots := [], [], [];
    }

    // The descent in the tree
    method Find(sector: nat) returns (cn: CacheNode?)
      requires Ordered(root)
      ensures cn == null <==> sector !in Keys(root)
      ensures cn != null ==> cn == Get(root, sector)
    {
      var t := root;
      while t.Node?
        invariant Ordered(t)
        invariant sector in Keys(t) <==> sector in Keys(root)
        invariant sector in Keys(t) ==> Get(t, sector) == Get(root, sector)
        decreases t
      {
        if sector < t.key {
          t := t.left;
        } else if sector > t.key {
          t := t.right;
        } else {
          return t.value;
        }
      }
      return null;
    }

    // The node of a key stands where the key does.
    lemma Locate(sector: nat, cn: CacheNode) returns (i: nat)
      requires Valid() && sector in Keys(root) && Get(root, sector) == cn
      ensures i == IndexOf(keys, sector) < |list| && list[i] == cn && cn.key == sector && cn.data == slots[i]
    {
      i := IndexOf(keys, sector);
      assert sector in keys;
      MatchesIff(root, keys, list);
      assert FieldsAt(list, keys, slots, i);
    }

    lemma Stored(sector: nat, cn: CacheNode)
      requires Valid() && sector in Keys(root) && Get(root, sector) == cn
      ensures sector in KeysOf(Contents()) && Lookup(Contents(), sector) == Slot(file, cn.data)
    {
      var i := Locate(sector, cn);
      PairsLookup(keys, slots, file, sector, i);
    }

    lemma NotStored(sector: nat)
      requires Valid() && sector !in Keys(root)
      ensures sector !in KeysOf(Contents())
    {
      PairsKeys(keys, slots, file);
    }

    // The block of a sector, read from the slot of its node
    method Search(sector: nat) returns (found: Option<Block>)
      requires Valid()
      ensures found == if sector in KeysOf(Contents()) then Some(Lookup(Contents(), sector)) else None
    {
      var cn := Find(sector);
      if cn == null {
        NotStored(sector);
        return None;
      }
      Stored(sector, cn);
      return Some(Slot(file, cn.data));
    }

    // A node that is not the head is taken out of the list.
    method Detach(cn: CacheNode, ghost i: nat)
      requires Links() && 0 < i < |list| && list[i] == cn
      modifies this`tail, this`list, list
      ensures list == old(list[..i] + list[i + 1..]) && Links() && cn !in list
      ensures forall n :: n in old(list) ==> n.key == old(n.key) && n.data == old(n.data)
    {
      assert LinkAt(list, i) && LinkAt(list, i - 1);
      assert i + 1 < |list| ==> LinkAt(list, i + 1);
      cn.prev.next := cn.next;
      if cn.next != null {
        cn.next.prev := cn.prev;
      } else {
        tail := cn.prev;
      }
      ghost var all := list;
      list := list[..i] + list[i + 1..];
      DistinctWithout(all, i);
      DistinctIff(all);
      forall j | 0 <= j < |list| ensures LinkAt(list, j) {
        assert old(LinkAt(all, if j < i then j else j + 1));
      }
    }

    // A node that is not in the list becomes its head.
    method PushFront(cn: CacheNode)
      requires Links() && cn !in list
      modifies this`head, this`tail, this`list, list, cn
      ensures list == [cn] + old(list) && Links()
      ensures cn.key == old(cn.key) && cn.data == old(cn.data)
      ensures forall n :: n in old(list) ==> n.key == old(n.key) && n.data == old(n.data)
    {
      ghost var all := list;
      assert all != [] ==> LinkAt(all, 0);
      cn.prev := null;
      cn.next := head;
      if head != null {
        head.prev := cn;
      }
      head := cn;
      if tail == null {
        tail := cn;
      }
      list := [cn] + list;
      DistinctIff(all);
      forall j | 0 <= j < |list| ensures LinkAt(list, j) {
        assert j > 0 ==> old(LinkAt(all, j - 1));
      }
    }

    // The last node leaves the list.
    method DropTail() returns (cn: CacheNode)
      requires Links() && |list| >= 2
      modifies this`tail, this`list, list
      ensures cn == old(list[|list| - 1]) && list == old(list[..|list| - 1]) && Links() && cn !in list
      ensures forall n :: n in old(list) ==> n.key == old(n.key) && n.data == old(n.data)
    {
      ghost var all := list;
      assert LinkAt(all, |all| - 1) && LinkAt(all, |all| - 2);
      cn := tail;
      tail.prev.next := null;
      tail := tail.prev;
      list := list[..|list| - 1];
      DistinctIff(all);
      DistinctIff(list);
      forall j | 0 <= j < |list| ensures LinkAt(list, j) {
        assert old(LinkAt(all, j));
      }
    }

    // A full cache of one block has no second node to become the tail: the source follows
    // a null pointer there.
    method Insert(sector: nat, buf: Block)
      requires Valid() && (maxBlocks > 1 || usedBlocks < maxBlocks || sector in Keys(root))
      modifies this, list
      ensures Valid() && Contents() == CacheContents.Insert(old(Contents()), sector, buf, maxBlocks)
      ensures fresh(set n | n in list && n !in old(list))
    {
      var cn := Find(sector);
      if cn != null {
        Touch(sector, cn, buf);
      } else if usedBlocks == maxBlocks {
        Replace(sector, buf);
      } else {
        Append(sector, buf);
      }
    }

    // The sector is in the cache: its node becomes the head, its block stays.
    method Touch(sector: nat, cn: CacheNode, ghost buf: Block)
      requires Valid() && sector in Keys(root) && Get(root, sector) == cn
      modifies this`head, this`tail, this`list, this`keys, this`slots, list
      ensures Valid() && Contents() == CacheContents.Insert(old(Contents()), sector, buf, maxBlocks)
      ensures forall n :: n in list ==> n in old(list)
    {
      ghost var i := Locate(sector, cn);
      MoveFits(root, keys, slots, list, usedBlocks, i);
      PairsToFront(keys, slots, file, sector, buf, maxBlocks, i);
      MoveToFront(cn, i);
    }

    method MoveToFront(cn: CacheNode, ghost i: nat)
      requires Links() && Fields() && i < |list| && list[i] == cn
      modifies this`head, this`tail, this`list, this`keys, this`slots, list
      ensures Links() && Fields() && list == ToFront(old(list), i)
      ensures keys == ToFront(old(keys), i) && slots == ToFront(old(slots), i)
    {
      ghost var all, ks, ss := list, keys, slots;
      assert LinkAt(list, i);
      if cn.prev != null {
        Detach(cn, i);
        PushFront(cn);
      }
      assert list == ToFront(all, i);
      keys, slots := ToFront(ks, i), ToFront(ss, i);
      forall j | 0 <= j < |list| ensures FieldsAt(list, keys, slots, j) {
        assert old(FieldsAt(all, ks, ss, if j == 0 then i else if j <= i then j - 1 else j));
      }
    }

    // One slot below usedBlocks is free.
    ghost predicate Vacant(slot: nat)
      reads this`root, this`head, this`tail, this`usedBlocks, this`file
      reads this`list, this`keys, this`slots, list
    {
      && Links() && Fields() && TreeFits(root, keys, list)
      && SlotFree(slots, usedBlocks, slot)
      && 0 < maxBlocks && usedBlocks <= maxBlocks
    }

    // The block is written to its slot, and the node enters the list and the tree.
    method Store(cn: CacheNode, sector: nat, slot: nat, buf: Block)
      requires Vacant(slot) && cn !in list && sector !in Keys(root)
      modifies this`root, this`head, this`tail, this`file, this`list, this`keys, this`slots, list, cn
      ensures Valid() && list == [cn] + old(list)
      ensures Contents() == [Entry(sector, buf)] + old(Contents())
    {
      ghost var all, ks, ss := list, keys, slots;
      EnterFits(root, ks, all, sector, cn);
      SlotTaken(ss, usedBlocks, slot);
      PairsEnter(ks, ss, file, sector, slot, buf);
      file := file[slot := buf];
      Place(cn, sector, slot);
      root := Link(root, sector, cn);
    }

    // The node is filled and becomes the head.
    method Place(cn: CacheNode, sector: nat, slot: nat)
      requires Links() && Fields() && cn !in list
      modifies this`head, this`tail, this`list, this`keys, this`slots, list, cn
      ensures Links() && Fields() && list == [cn] + old(list)
      ensures keys == [sector] + old(keys) && slots == [slot] + old(slots)
    {
      ghost var all, ks, ss := list, keys, slots;
      cn.key := sector;
      cn.data := slot;
      PushFront(cn);
      keys, slots := [sector] + keys, [slot] + slots;
      forall i | 0 <= i < |list| ensures FieldsAt(list, keys, slots, i) {
        assert i > 0 ==> old(FieldsAt(all, ks, ss, i - 1));
      }
    }

    // A full cache gives up the node and the slot at its tail.
    method Replace(sector: nat, buf: Block)
      requires Valid() && usedBlocks == maxBlocks > 1 && sector !in Keys(root)
      modifies this`root, this`head, this`tail, this`file, this`list, this`keys, this`slots, list
      ensures Valid() && Contents() == CacheContents.Insert(old(Contents()), sector, buf, maxBlocks)
      ensures forall n :: n in list ==> n in old(list)
    {
      NotStored(sector);
      DropFits(root, keys, slots, list, usedBlocks);
      PairsDrop(keys, slots, file, sector, buf, maxBlocks);
      var cn := RemoveLast();
      root := Erase(root, cn.key);
      Store(cn, sector, cn.data, buf);
    }

    method RemoveLast() returns (cn: CacheNode)
      requires Links() && Fields() && |list| >= 2
      modifies this`tail, this`list, this`keys, this`slots, list
      ensures Links() && Fields() && cn !in list
      ensures var n := old(|list|) - 1;
        && list == old(list)[..n] && keys == old(keys)[..n] && slots == old(slots)[..n]
        && cn == old(list)[n] && cn.key == old(keys)[n] && cn.data == old(slots)[n]
      ensures cn in old(list) && forall n :: n in list ==> n in old(list)
    {
      ghost var n, all, ks, ss := |list| - 1, list, keys, slots;
      assert FieldsAt(all, ks, ss, n);
      cn := DropTail();
      keys, slots := keys[..n], slots[..n];
      forall i | 0 <= i < |list| ensures FieldsAt(list, keys, slots, i) {
        assert old(FieldsAt(all, ks, ss, i));
      }
    }

    // A cache that is not full takes the next slot.
    method Append(sector: nat, buf: Block)
      requires Valid() && usedBlocks < maxBlocks && sector !in Keys(root)
      modifies this, list
      ensures Valid() && Contents() == CacheContents.Insert(old(Contents()), sector, buf, maxBlocks)
      ensures fresh(set n | n in list && n !in old(list))
    {
      NotStored(sector);
      PairsMiss(keys, slots, file, sector, buf, maxBlocks);
      NextSlot(slots, usedBlocks);
      var cn := new CacheNode();
      var slot := usedBlocks;
      usedBlocks := usedBlocks + 1;
      Store(cn, sector, slot, buf);
    }
  }

  function Pairs(keys: seq<nat>, slots: seq<nat>, file: map<nat, Block>): (es: seq<Entry>)
    requires |keys| == |slots|
    ensures |es| == |keys|
  {
    if keys == [] then [] else [Entry(keys[0], Slot(file, slots[0]))] + Pairs(keys[1..], slots[1..], file)
  }

  lemma {:induction false} PairsAt(keys: seq<nat>, slots: seq<nat>, file: map<nat, Block>)
    requires |keys| == |slots|
    ensures forall i :: 0 <= i < |keys| ==> Pairs(keys, slots, file)[i] == Entry(keys[i], Slot(file, slots[i]))
  {
    if keys != [] {
      PairsAt(keys[1..], slots[1..], file);
    }
  }

  lemma PairsLookup(keys: seq<nat>, slots: seq<nat>, file: map<nat, Block>, k: nat, i: nat)
    requires |keys| == |slots|
    requires i == IndexOf(keys, k) < |keys|
    ensures k in KeysOf(Pairs(keys, slots, file)) && Lookup(Pairs(keys, slots, file), k) == Slot(file, slots[i])
  {
    PairsKeys(keys, slots, file);
    PairsAt(keys, slots, file);
    assert keys[i] == k;
  }

  lemma PairsKeys(keys: seq<nat>, slots: seq<nat>, file: map<nat, Block>)
    requires |keys| == |slots|
    ensures KeysOf(Pairs(keys, slots, file)) == keys
  {
  }

  lemma MoveFits(
    root: Tree<CacheNode>, keys: seq<nat>, slots: seq<nat>, list: seq<CacheNode>,
    used: nat, i: nat)
    requires TreeFits(root, keys, list) && SlotsFit(slots, used) && i < |keys| == |slots|
    ensures TreeFits(root, ToFront(keys, i), ToFront(list, i)) && SlotsFit(ToFront(slots, i), used)
  {
    DistinctToFront(keys, i);
    DistinctToFront(slots, i);
    BelowIff(slots, used);
    BelowIff(ToFront(slots, i), used);
    MatchesIff(root, keys, list);
    MatchesIff(root, ToFront(keys, i), ToFront(list, i));
  }

  lemma DistinctToFront(s: seq<nat>, i: nat)
    requires Distinct(s) && i < |s|
    ensures Distinct(ToFront(s, i)) && forall x :: x in ToFront(s, i) <==> x in s
  {
    var t := s[..i] + s[i + 1..];
    DistinctWithout(s, i);
    assert ToFront(s, i) == [s[i]] + t && ([s[i]] + t)[1..] == t;
    assert s == s[..i] + [s[i]] + s[i + 1..];
  }

  lemma PairsToFront(
    keys: seq<nat>, slots: seq<nat>, file: map<nat, Block>, k: nat, b: Block, max: nat, i: nat)
    requires |keys| == |slots| <= max && max > 0
    requires i == IndexOf(keys, k) < |keys|
    ensures Pairs(ToFront(keys, i), ToFront(slots, i), file)
         == CacheContents.Insert(Pairs(keys, slots, file), k, b, max)
  {
    PairsKeys(keys, slots, file);
    PairsMoved(keys, slots, file, ToFront(keys, i), ToFront(slots, i), i);
  }

  lemma PairsMoved(
    keys: seq<nat>, slots: seq<nat>, file: map<nat, Block>, ks: seq<nat>, ss: seq<nat>, i: nat)
    requires |keys| == |slots| && i < |keys| && ks == ToFront(keys, i) && ss == ToFront(slots, i)
    ensures Pairs(ks, ss, file) == ToFront(Pairs(keys, slots, file), i)
  {
    PairsAt(keys, slots, file);
    PairsAt(ks, ss, file);
    var es := Pairs(keys, slots, file);
    forall j | 0 <= j < |keys| ensures Pairs(ks, ss, file)[j] == ToFront(es, i)[j] {
    }
  }

  lemma EnterFits(root: Tree<CacheNode>, keys: seq<nat>, list: seq<CacheNode>, k: nat, cn: CacheNode)
    requires TreeFits(root, keys, list) && k !in Keys(root)
    ensures TreeFits(Link(root, k, cn), [k] + keys, [cn] + list)
  {
    LinkCorrect(root, k, cn);
    MatchesIff(root, keys, list);
    MatchesIff(Link(root, k, cn), keys, list);
    assert ([k] + keys)[1..] == keys && ([cn] + list)[1..] == list;
  }

  lemma NextSlot(slots: seq<nat>, used: nat)
    requires SlotsFit(slots, used)
    ensures SlotFree(slots, used + 1, used)
  {
    BelowIff(slots, used);
    BelowIff(slots, used + 1);
  }

  lemma SlotTaken(slots: seq<nat>, used: nat, slot: nat)
    requires SlotFree(slots, used, slot)
    ensures SlotsFit([slot] + slots, used)
  {
    assert ([slot] + slots)[1..] == slots;
  }

  lemma PairsEnter(keys: seq<nat>, slots: seq<nat>, file: map<nat, Block>, k: nat, slot: nat, b: Block)
    requires |keys| == |slots| && slot !in slots
    ensures Pairs([k] + keys, [slot] + slots, file[slot := b]) == [Entry(k, b)] + Pairs(keys, slots, file)
  {
    assert ([k] + keys)[1..] == keys && ([slot] + slots)[1..] == slots;
    PairsAt(keys, slots, file);
    PairsAt(keys, slots, file[slot := b]);
    assert Pairs(keys, slots, file[slot := b]) == Pairs(keys, slots, file);
  }

  lemma DropFits(
    root: Tree<CacheNode>, keys: seq<nat>, slots: seq<nat>, list: seq<CacheNode>, used: nat)
    requires TreeFits(root, keys, list) && SlotsFit(slots, used) && |keys| == |slots| > 0
    ensures var n := |keys| - 1;
      TreeFits(Erase(root, keys[n]), keys[..n], list[..n]) && SlotFree(slots[..n], used, slots[n])
  {
    var n := |keys| - 1;
    EraseCorrect(root, keys[n]);
    DistinctIff(keys);
    DistinctIff(keys[..n]);
    DistinctIff(slots);
    DistinctIff(slots[..n]);
    BelowIff(slots, used);
    BelowIff(slots[..n], used);
    MatchesIff(root, keys, list);
    MatchesIff(Erase(root, keys[n]), keys[..n], list[..n]);
    assert keys == keys[..n] + [keys[n]];
  }

  lemma PairsMiss(keys: seq<nat>, slots: seq<nat>, file: map<nat, Block>, k: nat, b: Block, max: nat)
    requires |keys| == |slots| < max
    requires k !in KeysOf(Pairs(keys, slots, file))
    ensures CacheContents.Insert(Pairs(keys, slots, file), k, b, max) == [Entry(k, b)] + Pairs(keys, slots, file)
  {
    IndexOfNone(KeysOf(Pairs(keys, slots, file)), k);
  }

  lemma PairsDrop(keys: seq<nat>, slots: seq<nat>, file: map<nat, Block>, k: nat, b: Block, max: nat)
    requires |keys| == |slots| == max > 0
    requires k !in KeysOf(Pairs(keys, slots, file))
    ensures CacheContents.Insert(Pairs(keys, slots, file), k, b, max)
         == [Entry(k, b)] + Pairs(keys[..max - 1], slots[..max - 1], file)
  {
    IndexOfNone(KeysOf(Pairs(keys, slots, file)), k);
    PairsAt(keys, slots, file);
    PairsAt(keys[..max - 1], slots[..max - 1], file);
    assert Pairs(keys, slots, file)[..max - 1] == Pairs(keys[..max - 1], slots[..max - 1], file);
  }
}
