/** The abstract values behind an event channel: its subscriber list, as the
    sequence of callbacks from `m_head` along `m_next`, and the calls that
    dispatching its buffered records makes. The channel's methods are proved
    against these functions; the lemmas here say what the functions promise. */
module Delivery {
  import opened Delegate

  /** One buffered event record: the bytes of the posted value. */
  type Record = seq<bv8>

  type Call = Invocation<Record>

  /** No two subscribers of the list are equal callbacks. */
  predicate Unique(s: seq<Binding>) {
    forall i, j :: 0 <= i < j < |s| ==> s[i] != s[j]
  }

  /** The list after `add_delegate(d)`: unchanged when an equal callback is
      already subscribed, otherwise `d` in front of the old list. */
  function Added(s: seq<Binding>, d: Binding): (r: seq<Binding>)
    ensures d in r
  {
    if d in s then s else [d] + s
  }

  /** The list after `remove_delegate(d)`: the first subscriber equal to `d`
      is unlinked, the others keep their order. */
  function RemoveFirst(s: seq<Binding>, d: Binding): (r: seq<Binding>)
    ensures |r| == if d in s then |s| - 1 else |s|
  {
    if s == [] then []
    else if s[0] == d then s[1..]
    else [s[0]] + RemoveFirst(s[1..], d)
  }

  /** Adding keeps the list free of duplicates. */
  lemma AddedUnique(s: seq<Binding>, d: Binding)
    requires Unique(s)
    ensures Unique(Added(s, d))
  {
  }

  /** Adding the same callback twice is the same as adding it once. */
  lemma AddedIdempotent(s: seq<Binding>, d: Binding)
    ensures Added(Added(s, d), d) == Added(s, d)
  {
  }

  /** Removing the first match unlinks exactly the node at its index. */
  lemma {:induction false} RemoveFirstAt(s: seq<Binding>, d: Binding, k: nat)
    requires k < |s| && s[k] == d && d !in s[..k]
    ensures RemoveFirst(s, d) == s[..k] + s[k + 1..]
  {
    if k > 0 {
      assert s[0] != d by { assert s[0] == s[..k][0]; }
      assert s[1..][..k - 1] == s[..k][1..];
      RemoveFirstAt(s[1..], d, k - 1);
      assert s[..k] == [s[0]] + s[1..][..k - 1];
      assert s[k + 1..] == s[1..][k..];
    }
  }

  /** Removing a callback that is not subscribed leaves the list as it is. */
  lemma {:induction false} RemoveAbsent(s: seq<Binding>, d: Binding)
    requires d !in s
    ensures RemoveFirst(s, d) == s
  {
    if s != [] {
      RemoveAbsent(s[1..], d);
    }
  }

  /** On a duplicate-free list, removal keeps it duplicate-free, takes out
      `d` and only `d`. */
  lemma {:induction false} RemoveFirstUnique(s: seq<Binding>, d: Binding)
    requires Unique(s)
    ensures Unique(RemoveFirst(s, d))
    ensures forall x :: x in RemoveFirst(s, d) <==> x in s && x != d
  {
    if s != [] {
      assert Unique(s[1..]) by {
        forall i, j | 0 <= i < j < |s[1..]| ensures s[1..][i] != s[1..][j] {
          assert s[1..][i] == s[i + 1] && s[1..][j] == s[j + 1];
        }
      }
      RemoveFirstUnique(s[1..], d);
      if s[0] == d {
        assert s[0] !in s[1..] by {
          forall j | 0 <= j < |s[1..]| ensures s[1..][j] != s[0] {
            assert s[1..][j] == s[j + 1];
          }
        }
      } else {
        assert s[0] !in s[1..] by {
          forall j | 0 <= j < |s[1..]| ensures s[1..][j] != s[0] {
            assert s[1..][j] == s[j + 1];
          }
        }
        assert s == [s[0]] + s[1..];
      }
    }
  }

  /** Taking out one element keeps a list free of duplicates. */
  lemma UniqueWithout(s: seq<Binding>, k: nat)
    requires Unique(s) && k < |s|
    ensures Unique(s[..k] + s[k + 1..])
  {
    var r := s[..k] + s[k + 1..];
    forall i, j | 0 <= i < j < |r| ensures r[i] != r[j] {
      var i' := if i < k then i else i + 1;
      var j' := if j < k then j else j + 1;
      assert r[i] == s[i'] && r[j] == s[j'];
    }
  }

  /** Subscribing a new callback and then unsubscribing it restores the list. */
  lemma AddRemoveRoundTrip(s: seq<Binding>, d: Binding)
    requires d !in s
    ensures RemoveFirst(Added(s, d), d) == s
  {
  }

  /** The calls one subscriber makes for a run of records: one invocation per
      record, in index order. */
  function Deliveries(d: Binding, records: seq<Record>): (calls: seq<Call>)
    ensures |calls| == if IsSet(d) then |records| else 0
  {
    if records == [] then [] else Invoke(d, records[0]) + Deliveries(d, records[1..])
  }

  /** `v_fire_events` over one block: subscriber-major, the list in order
      (newest subscriber first), and for each subscriber every record. */
  function FireCalls(subs: seq<Binding>, records: seq<Record>): seq<Call> {
    if subs == [] then [] else Deliveries(subs[0], records) + FireCalls(subs[1..], records)
  }

  /** A channel's dispatch: every block of the chain in chain order, each one
      fired as `v_fire_events` does. */
  function ChainCalls(subs: seq<Binding>, blocks: seq<seq<Record>>): seq<Call> {
    if blocks == [] then [] else FireCalls(subs, blocks[0]) + ChainCalls(subs, blocks[1..])
  }

  /** All records of a chain, block after block. */
  function Flatten(blocks: seq<seq<Record>>): seq<Record> {
    if blocks == [] then [] else blocks[0] + Flatten(blocks[1..])
  }

  /** The calls of a log that went to the target bound in `d`. */
  function CallsTo(calls: seq<Call>, d: Binding): (r: seq<Call>)
  {
    if calls == [] then []
    else (if Target(calls[0]) == d then [calls[0]] else []) + CallsTo(calls[1..], d)
  }

  lemma {:induction false} CallsToAppend(a: seq<Call>, b: seq<Call>, d: Binding)
    ensures CallsTo(a + b, d) == CallsTo(a, d) + CallsTo(b, d)
  {
    if a == [] {
      assert a + b == b;
    } else {
      var head := if Target(a[0]) == d then [a[0]] else [];
      assert (a + b)[0] == a[0] && (a + b)[1..] == a[1..] + b;
      CallsToAppend(a[1..], b, d);
      assert CallsTo(a + b, d) == head + CallsTo(a[1..] + b, d);
      assert CallsTo(a, d) == head + CallsTo(a[1..], d);
    }
  }

  /** The `i`-th delivery of a set callback is the call of its target with record `i`. */
  lemma {:induction false} DeliveriesAt(d: Binding, records: seq<Record>, i: nat)
    requires IsSet(d) && i < |records|
    ensures Target(Deliveries(d, records)[i]) == d
    ensures Deliveries(d, records)[i].arg == records[i]
  {
    var c := Invoke(d, records[0]);
    assert c[0] in c;
    if i > 0 {
      DeliveriesAt(d, records[1..], i - 1);
    }
  }

  lemma {:induction false} DeliveriesAppend(d: Binding, a: seq<Record>, b: seq<Record>)
    ensures Deliveries(d, a + b) == Deliveries(d, a) + Deliveries(d, b)
  {
    if a == [] {
      assert a + b == b;
    } else {
      assert (a + b)[1..] == a[1..] + b;
      DeliveriesAppend(d, a[1..], b);
    }
  }

  /** One more record at the end adds one more invocation at the end. */
  lemma DeliveriesSnoc(d: Binding, a: seq<Record>, x: Record)
    ensures Deliveries(d, a + [x]) == Deliveries(d, a) + Invoke(d, x)
  {
    DeliveriesAppend(d, a, [x]);
    assert Deliveries(d, [x]) == Invoke(d, x) + Deliveries(d, [x][1..]);
  }

  /** One more subscriber at the end of the list adds its deliveries at the end. */
  lemma {:induction false} FireCallsSnoc(subs: seq<Binding>, d: Binding, records: seq<Record>)
    ensures FireCalls(subs + [d], records) == FireCalls(subs, records) + Deliveries(d, records)
  {
    if subs == [] {
      assert [] + [d] == [d];
      assert FireCalls([d], records) == Deliveries(d, records) + FireCalls([d][1..], records);
    } else {
      assert (subs + [d])[1..] == subs[1..] + [d];
      FireCallsSnoc(subs[1..], d, records);
    }
  }

  /** One more block at the end of the chain adds its firing at the end. */
  lemma {:induction false} ChainCallsSnoc(subs: seq<Binding>, blocks: seq<seq<Record>>, x: seq<Record>)
    ensures ChainCalls(subs, blocks + [x]) == ChainCalls(subs, blocks) + FireCalls(subs, x)
  {
    if blocks == [] {
      assert [] + [x] == [x];
      assert ChainCalls(subs, [x]) == FireCalls(subs, x) + ChainCalls(subs, [x][1..]);
    } else {
      assert (blocks + [x])[1..] == blocks[1..] + [x];
      ChainCallsSnoc(subs, blocks[1..], x);
    }
  }

  /** The calls of the first `k + 1` subscribers: those of the first `k`,
      then those of subscriber `k`. */
  lemma FireCallsPrefix(subs: seq<Binding>, k: nat, records: seq<Record>)
    requires k < |subs|
    ensures FireCalls(subs[..k + 1], records) == FireCalls(subs[..k], records) + Deliveries(subs[k], records)
  {
    assert subs[..k + 1] == subs[..k] + [subs[k]];
    FireCallsSnoc(subs[..k], subs[k], records);
  }

  /** The calls of the first `b + 1` blocks: those of the first `b`, then
      those of block `b`. */
  lemma ChainCallsPrefix(subs: seq<Binding>, blocks: seq<seq<Record>>, b: nat)
    requires b < |blocks|
    ensures ChainCalls(subs, blocks[..b + 1]) == ChainCalls(subs, blocks[..b]) + FireCalls(subs, blocks[b])
  {
    assert blocks[..b + 1] == blocks[..b] + [blocks[b]];
    ChainCallsSnoc(subs, blocks[..b], blocks[b]);
  }

  /** A record added to the last block is added at the end of the records. */
  lemma {:induction false} LastGrows(blocks: seq<seq<Record>>, record: Record)
    requires blocks != []
    ensures Flatten(blocks[..|blocks| - 1] + [blocks[|blocks| - 1] + [record]]) == Flatten(blocks) + [record]
  {
    var prefix, last := blocks[..|blocks| - 1], blocks[|blocks| - 1];
    assert blocks == prefix + [last];
    FlattenSnoc(prefix, last);
    FlattenSnoc(prefix, last + [record]);
  }

  /** A record added to a new, empty last block is added at the end of the records. */
  lemma {:induction false} NewLastGrows(blocks: seq<seq<Record>>, record: Record)
    ensures (blocks + [[]])[..|blocks|] + [(blocks + [[]])[|blocks|] + [record]] == blocks + [[record]]
    ensures Flatten(blocks + [[record]]) == Flatten(blocks) + [record]
  {
    var grown := blocks + [[]];
    assert grown[..|blocks|] == blocks;
    assert grown[|blocks|] + [record] == [record];
    FlattenSnoc(blocks, [record]);
  }

  lemma {:induction false} FlattenSnoc(blocks: seq<seq<Record>>, x: seq<Record>)
    ensures Flatten(blocks + [x]) == Flatten(blocks) + x
  {
    if blocks == [] {
      assert [] + [x] == [x];
      assert Flatten([x]) == x + Flatten([x][1..]);
    } else {
      assert (blocks + [x])[1..] == blocks[1..] + [x];
      FlattenSnoc(blocks[1..], x);
    }
  }

  /** Overwriting the last record of the last block changes the flattened
      records in their last place only. */
  lemma LastRecordReplaced(blocks: seq<seq<Record>>, after: seq<seq<Record>>, record: Record)
    requires blocks != [] && |after| == |blocks| && blocks[|blocks| - 1] != []
    requires after[..|blocks| - 1] == blocks[..|blocks| - 1]
    requires after[|blocks| - 1] == blocks[|blocks| - 1][..|blocks[|blocks| - 1]| - 1] + [record]
    ensures Flatten(blocks) != []
    ensures Flatten(after) == Flatten(blocks)[..|Flatten(blocks)| - 1] + [record]
  {
    var n := |blocks|;
    var prefix := blocks[..n - 1];
    var last := blocks[n - 1];
    assert blocks == prefix + [last];
    assert after == prefix + [after[n - 1]];
    FlattenSnoc(prefix, last);
    FlattenSnoc(prefix, after[n - 1]);
    assert (Flatten(prefix) + last)[..|Flatten(prefix) + last| - 1] == Flatten(prefix) + last[..|last| - 1];
  }

  /** Of the deliveries of one subscriber, exactly those of that subscriber go to `d`. */
  lemma {:induction false} CallsToDeliveries(d: Binding, e: Binding, records: seq<Record>)
    ensures CallsTo(Deliveries(e, records), d) == if e == d then Deliveries(d, records) else []
  {
    if records != [] {
      var c := Invoke(e, records[0]);
      CallsToAppend(c, Deliveries(e, records[1..]), d);
      CallsToDeliveries(d, e, records[1..]);
      if c != [] {
        assert c[0] in c;
        assert c == [c[0]];
        assert CallsTo(c, d) == (if Target(c[0]) == d then [c[0]] else []) + CallsTo([], d);
      }
    }
  }

  /** Firing one block: a subscribed callback receives exactly one call per
      record, in record order; a callback that is not subscribed receives none. */
  lemma {:induction false} FireCallsTo(subs: seq<Binding>, records: seq<Record>, d: Binding)
    requires Unique(subs)
    ensures CallsTo(FireCalls(subs, records), d) == if d in subs then Deliveries(d, records) else []
  {
    if subs != [] {
      assert Unique(subs[1..]) by {
        forall i, j | 0 <= i < j < |subs[1..]| ensures subs[1..][i] != subs[1..][j] {
          assert subs[1..][i] == subs[i + 1] && subs[1..][j] == subs[j + 1];
        }
      }
      assert subs[0] !in subs[1..] by {
        forall j | 0 <= j < |subs[1..]| ensures subs[1..][j] != subs[0] {
          assert subs[1..][j] == subs[j + 1];
        }
      }
      CallsToAppend(Deliveries(subs[0], records), FireCalls(subs[1..], records), d);
      CallsToDeliveries(d, subs[0], records);
      FireCallsTo(subs[1..], records, d);
      assert d in subs <==> d == subs[0] || d in subs[1..] by {
        assert subs == [subs[0]] + subs[1..];
      }
    }
  }

  /** Dispatching a whole chain: a subscribed callback receives exactly one
      call per buffered record, in the order of the chain and, within a block,
      of the records; a callback that is not subscribed receives none. */
  lemma {:induction false} ChainCallsTo(subs: seq<Binding>, blocks: seq<seq<Record>>, d: Binding)
    requires Unique(subs)
    ensures CallsTo(ChainCalls(subs, blocks), d) == if d in subs then Deliveries(d, Flatten(blocks)) else []
  {
    if blocks != [] {
      CallsToAppend(FireCalls(subs, blocks[0]), ChainCalls(subs, blocks[1..]), d);
      FireCallsTo(subs, blocks[0], d);
      ChainCallsTo(subs, blocks[1..], d);
      DeliveriesAppend(d, blocks[0], Flatten(blocks[1..]));
    }
  }

  /** A callback unsubscribed before dispatch gets no call, not even for the
      records that were buffered while it was subscribed. */
  lemma RemovedGetsNothing(subs: seq<Binding>, blocks: seq<seq<Record>>, d: Binding)
    requires Unique(subs)
    ensures CallsTo(ChainCalls(RemoveFirst(subs, d), blocks), d) == []
  {
    RemoveFirstUnique(subs, d);
    ChainCallsTo(RemoveFirst(subs, d), blocks, d);
  }

  /** The offset of run `k` in a log of runs of `n` calls each, which is
      `k * n`; positions are stated with it to keep products out of the
      proofs. */
  function Runs(k: nat, n: nat): nat {
    if k == 0 then 0 else Runs(k - 1, n) + n
  }

  lemma {:induction false} RunsIsProduct(k: nat, n: nat)
    ensures Runs(k, n) == k * n
  {
    if k > 0 {
      RunsIsProduct(k - 1, n);
      MulStep(k, n);
    }
  }

  /** Position `i` of run `k` lies before the end of `m` runs when `k < m`. */
  lemma {:induction false} RunsBound(k: nat, i: nat, m: nat, n: nat)
    requires k < m && i < n
    ensures Runs(k, n) + i < Runs(m, n)
  {
    if k + 1 < m {
      RunsBound(k, i, m - 1, n);
    }
  }

  /** Firing is subscriber-major: with every subscriber set, one block makes
      one run of `|records|` calls per subscriber, in list order, and call
      `i` of run `k` (position `k * |records| + i`) is subscriber `k`'s call
      with record `i`. */
  lemma {:induction false} FireCallsRun(subs: seq<Binding>, records: seq<Record>, k: nat, i: nat)
    requires forall j | 0 <= j < |subs| :: IsSet(subs[j])
    requires k < |subs| && i < |records|
    ensures |FireCalls(subs, records)| == Runs(|subs|, |records|)
    ensures Runs(k, |records|) + i < |FireCalls(subs, records)|
    ensures Target(FireCalls(subs, records)[Runs(k, |records|) + i]) == subs[k]
      && FireCalls(subs, records)[Runs(k, |records|) + i].arg == records[i]
  {
    FireCallsLength(subs, records);
    RunsBound(k, i, |subs|, |records|);
    RunCall(subs, records, k, i);
  }

  /** The call at position `i` of run `k`, by induction on `k`. */
  lemma {:induction false} RunCall(subs: seq<Binding>, records: seq<Record>, k: nat, i: nat)
    requires forall j | 0 <= j < |subs| :: IsSet(subs[j])
    requires k < |subs| && i < |records|
    requires Runs(k, |records|) + i < |FireCalls(subs, records)|
    ensures Target(FireCalls(subs, records)[Runs(k, |records|) + i]) == subs[k]
    ensures FireCalls(subs, records)[Runs(k, |records|) + i].arg == records[i]
  {
    var n := |records|;
    var first := Deliveries(subs[0], records);
    var rest := FireCalls(subs[1..], records);
    assert FireCalls(subs, records) == first + rest;
    assert |first| == n;
    if k == 0 {
      DeliveriesAt(subs[0], records, i);
    } else {
      assert forall j | 0 <= j < |subs[1..]| :: IsSet(subs[1..][j]) by {
        forall j | 0 <= j < |subs[1..]| ensures IsSet(subs[1..][j]) {
          assert subs[1..][j] == subs[j + 1];
        }
      }
      var j := Runs(k - 1, n) + i;
      assert Runs(k, n) + i == n + j;
      RunCall(subs[1..], records, k - 1, i);
      AppendIndex(first, rest, n + j);
      assert subs[1..][k - 1] == subs[k];
    }
  }

  lemma AppendIndex(a: seq<Call>, b: seq<Call>, j: nat)
    requires |a| <= j < |a| + |b|
    ensures (a + b)[j] == b[j - |a|]
  {
  }

  lemma MulStep(k: nat, n: nat)
    requires k > 0
    ensures k * n == (k - 1) * n + n
  {
  }

  lemma {:induction false} FireCallsLength(subs: seq<Binding>, records: seq<Record>)
    requires forall j | 0 <= j < |subs| :: IsSet(subs[j])
    ensures |FireCalls(subs, records)| == Runs(|subs|, |records|)
  {
    if subs != [] {
      FireCallsLength(subs[1..], records);
    }
  }
}
