/** The join of several prediction streams (src/multisource.cc): `receive_features` and its ring of partial examples. */
module MultiSource {
  import opened Modulus
  import opened Features

  /** What a source sends for one example; only the label source's messages are followed by a label. */
  datatype Message = Message(number: nat, p: real, lab: real)

  datatype Partial = Partial(number: nat, lab: real, features: seq<Feature>)

  /** The result of one call; `Blocked` is a `select` on no socket at all, which never returns. */
  datatype Received = Joined(features: seq<Feature>, lab: real) | Finished | Blocked

  /** Each source numbers its messages 1, 2, 3, ... */
  predicate InOrder(streams: seq<seq<Message>>) {
    forall s, j :: 0 <= s < |streams| && 0 <= j < |streams[s]| ==> streams[s][j].number == j + 1
  }

  function Sent(streams: seq<seq<Message>>, idOf: seq<nat>, s: nat, e: nat): Feature
    requires s < |streams| == |idOf| && 0 < e <= |streams[s]|
  {
    Feature(streams[s][e - 1].p, idOf[s])
  }

  predicate ReadsOk(streams: seq<seq<Message>>, idOf: seq<nat>, got: seq<nat>) {
    |got| == |streams| == |idOf| && forall s :: 0 <= s < |streams| ==> got[s] <= |streams[s]|
  }

  /** What the first `n` sources have contributed to example `e`, having sent `got` messages each. */
  function Contributed(streams: seq<seq<Message>>, idOf: seq<nat>, got: seq<nat>, e: nat, n: nat): multiset<Feature>
    requires ReadsOk(streams, idOf, got) && 0 < e && n <= |streams|
  {
    if n == 0 then multiset{}
    else if got[n - 1] < e then Contributed(streams, idOf, got, e, n - 1)
    else Contributed(streams, idOf, got, e, n - 1) + multiset{Sent(streams, idOf, n - 1, e)}
  }

  /** One feature from every source. */
  function Whole(streams: seq<seq<Message>>, idOf: seq<nat>, e: nat, n: nat): multiset<Feature>
    requires |streams| == |idOf| && 0 < e && n <= |streams|
    requires forall s :: 0 <= s < |streams| ==> e <= |streams[s]|
  {
    if n == 0 then multiset{} else Whole(streams, idOf, e, n - 1) + multiset{Sent(streams, idOf, n - 1, e)}
  }

  /** One message from each: the prediction it sent for `e`, under its own id. */
  lemma {:induction false} OneFromEach(streams: seq<seq<Message>>, idOf: seq<nat>, e: nat, n: nat)
    requires |streams| == |idOf| && 0 < e && n <= |streams|
    requires forall s :: 0 <= s < |streams| ==> e <= |streams[s]|
    ensures Whole(streams, idOf, e, n)
         == multiset(seq(n, s requires 0 <= s < n => Feature(streams[s][e - 1].p, idOf[s])))
  {
    if n > 0 {
      OneFromEach(streams, idOf, e, n - 1);
      var front := seq(n - 1, s requires 0 <= s < n - 1 => Feature(streams[s][e - 1].p, idOf[s]));
      assert seq(n, s requires 0 <= s < n => Feature(streams[s][e - 1].p, idOf[s]))
          == front + [Sent(streams, idOf, n - 1, e)];
    }
  }

  lemma {:induction false} ContributedSize(streams: seq<seq<Message>>, idOf: seq<nat>, got: seq<nat>, e: nat, n: nat)
    requires ReadsOk(streams, idOf, got) && 0 < e && n <= |streams|
    ensures |Contributed(streams, idOf, got, e, n)| <= n
    ensures |Contributed(streams, idOf, got, e, n)| == n <==> forall s :: 0 <= s < n ==> got[s] >= e
  {
    hide Sent;
    if n > 0 {
      ContributedSize(streams, idOf, got, e, n - 1);
    }
  }

  lemma {:induction false} ContributedNone(streams: seq<seq<Message>>, idOf: seq<nat>, got: seq<nat>, e: nat, n: nat)
    requires ReadsOk(streams, idOf, got) && 0 < e && n <= |streams|
    requires forall s :: 0 <= s < n ==> got[s] < e
    ensures Contributed(streams, idOf, got, e, n) == multiset{}
  {
    if n > 0 {
      ContributedNone(streams, idOf, got, e, n - 1);
    }
  }

  lemma {:induction false} ContributedWhole(streams: seq<seq<Message>>, idOf: seq<nat>, got: seq<nat>, e: nat, n: nat)
    requires ReadsOk(streams, idOf, got) && 0 < e && n <= |streams|
    requires forall s :: 0 <= s < |streams| ==> got[s] >= e
    ensures Contributed(streams, idOf, got, e, n) == Whole(streams, idOf, e, n)
  {
    if n > 0 {
      ContributedWhole(streams, idOf, got, e, n - 1);
    }
  }

  /** Reading one more message from source `s` adds its feature to that example and to no other. */
  lemma {:induction false} ContributedStep(streams: seq<seq<Message>>, idOf: seq<nat>, got: seq<nat>, s: nat,
                                           e: nat, n: nat)
    requires ReadsOk(streams, idOf, got) && 0 < e && n <= |streams|
    requires s < |streams| && got[s] < |streams[s]|
    ensures ReadsOk(streams, idOf, got[s := got[s] + 1])
    ensures Contributed(streams, idOf, got[s := got[s] + 1], e, n)
         == Contributed(streams, idOf, got, e, n)
            + if s < n && e == got[s] + 1 then multiset{Sent(streams, idOf, s, e)} else multiset{}
  {
    if n > 0 {
      ContributedStep(streams, idOf, got, s, e, n - 1);
    }
  }

  /** The ring: slot `e % R` holds what has arrived for example `e`. */
  ghost predicate Holds(streams: seq<seq<Message>>, idOf: seq<nat>, labelSource: nat, got: seq<nat>,
                        slot: Partial, e: nat)
    requires ReadsOk(streams, idOf, got) && labelSource < |streams| && 0 < e
  {
    && multiset(slot.features) == Contributed(streams, idOf, got, e, |streams|)
    && (slot.features != [] ==> slot.number == e)
    && (got[labelSource] >= e ==> slot.lab == streams[labelSource][e - 1].lab)
  }

  ghost predicate RingHolds(streams: seq<seq<Message>>, idOf: seq<nat>, labelSource: nat, got: seq<nat>,
                            pes: seq<Partial>, finished: nat)
    requires ReadsOk(streams, idOf, got) && labelSource < |streams| && |pes| > 0
  {
    forall e :: finished < e <= finished + |pes| ==> Holds(streams, idOf, labelSource, got, pes[e % |pes|], e)
  }

  /** The example of the next message from `s` is stored. */
  function Stored(slot: Partial, e: nat, f: Feature, isLabel: bool, lab: real): Partial {
    Partial(if slot.features == [] then e else slot.number,
            if isLabel then lab else slot.lab,
            slot.features + [f])
  }

  lemma StoredHolds(streams: seq<seq<Message>>, idOf: seq<nat>, labelSource: nat, got: seq<nat>, slot: Partial, s: nat)
    requires ReadsOk(streams, idOf, got) && labelSource < |streams| && s < |streams| && got[s] < |streams[s]|
    requires Holds(streams, idOf, labelSource, got, slot, got[s] + 1)
    ensures var e := got[s] + 1;
      var slot' := Stored(slot, e, Sent(streams, idOf, s, e), s == labelSource, streams[s][e - 1].lab);
      && ReadsOk(streams, idOf, got[s := e])
      && Holds(streams, idOf, labelSource, got[s := e], slot', e) && slot'.number == e
  {
    hide Contributed, Sent;
    ContributedStep(streams, idOf, got, s, got[s] + 1, |streams|);
  }

  lemma OtherHolds(streams: seq<seq<Message>>, idOf: seq<nat>, labelSource: nat, got: seq<nat>, slot: Partial, s: nat,
                   d: nat)
    requires ReadsOk(streams, idOf, got) && labelSource < |streams| && s < |streams| && got[s] < |streams[s]|
    requires 0 < d != got[s] + 1 && Holds(streams, idOf, labelSource, got, slot, d)
    ensures ReadsOk(streams, idOf, got[s := got[s] + 1])
    ensures Holds(streams, idOf, labelSource, got[s := got[s] + 1], slot, d)
  {
    hide Contributed, Sent;
    ContributedStep(streams, idOf, got, s, d, |streams|);
  }

  lemma StoreKeeps(streams: seq<seq<Message>>, idOf: seq<nat>, labelSource: nat, got: seq<nat>,
                   pes: seq<Partial>, finished: nat, s: nat)
    requires ReadsOk(streams, idOf, got) && labelSource < |streams| && |pes| > 0
    requires RingHolds(streams, idOf, labelSource, got, pes, finished)
    requires s < |streams| && finished <= got[s] < finished + |pes| && got[s] < |streams[s]|
    ensures var e := got[s] + 1;
      var slot := Stored(pes[e % |pes|], e, Sent(streams, idOf, s, e), s == labelSource, streams[s][e - 1].lab);
      && ReadsOk(streams, idOf, got[s := e])
      && RingHolds(streams, idOf, labelSource, got[s := e], pes[e % |pes| := slot], finished)
      && slot.number == e
  {
    hide Holds, Stored, Sent;
    var e := got[s] + 1;
    StoredHolds(streams, idOf, labelSource, got, pes[e % |pes|], s);
    var slot := Stored(pes[e % |pes|], e, Sent(streams, idOf, s, e), s == labelSource, streams[s][e - 1].lab);
    var pes' := pes[e % |pes| := slot];
    forall d | finished < d <= finished + |pes|
      ensures Holds(streams, idOf, labelSource, got[s := e], pes'[d % |pes|], d)
    {
      if d != e {
        OtherHolds(streams, idOf, labelSource, got, pes[d % |pes|], s, d);
        if d < e { ModApart(d, e, |pes|); } else { ModApart(e, d, |pes|); }
      }
    }
  }

  /** Emptying the slot of the finished example makes room for the one a ring size later. */
  lemma ResetKeeps(streams: seq<seq<Message>>, idOf: seq<nat>, labelSource: nat, got: seq<nat>,
                   pes: seq<Partial>, finished: nat)
    requires ReadsOk(streams, idOf, got) && labelSource < |streams| && |pes| > 0
    requires RingHolds(streams, idOf, labelSource, got, pes, finished)
    requires forall s :: 0 <= s < |streams| ==> got[s] <= finished + |pes|
    ensures var i := (finished + 1) % |pes|;
      RingHolds(streams, idOf, labelSource, got, pes[i := pes[i].(features := [])], finished + 1)
  {
    var i := (finished + 1) % |pes|;
    var pes' := pes[i := pes[i].(features := [])];
    forall d | finished + 1 < d <= finished + 1 + |pes|
      ensures Holds(streams, idOf, labelSource, got, pes'[d % |pes|], d)
    {
      if d == finished + 1 + |pes| {
        ContributedNone(streams, idOf, got, d, |streams|);
        assert d % |pes| == i by { ModAround(finished + 1, |pes|); }
      } else {
        ModApart(finished + 1, d, |pes|);
        assert Holds(streams, idOf, labelSource, got, pes[d % |pes|], d);
      }
    }
  }

  /** The messages not read yet. */
  function Left(streams: seq<seq<Message>>, got: seq<nat>, n: nat): nat
    requires |got| == |streams| && n <= |streams|
    requires forall s :: 0 <= s < |streams| ==> got[s] <= |streams[s]|
  {
    if n == 0 then 0 else Left(streams, got, n - 1) + (|streams[n - 1]| - got[n - 1])
  }

  lemma {:induction false} LeftStep(streams: seq<seq<Message>>, got: seq<nat>, s: nat, n: nat)
    requires |got| == |streams| && n <= |streams| && s < |streams| && got[s] < |streams[s]|
    requires forall t :: 0 <= t < |streams| ==> got[t] <= |streams[t]|
    ensures Left(streams, got[s := got[s] + 1], n) == Left(streams, got, n) - if s < n then 1 else 0
  {
    if n > 0 { LeftStep(streams, got, s, n - 1); }
  }

  /** Once a slot holds as many features as there are sources, its example is the next one and is complete. */
  lemma Complete(streams: seq<seq<Message>>, idOf: seq<nat>, labelSource: nat, got: seq<nat>, slot: Partial,
                 e: nat, finished: nat)
    requires ReadsOk(streams, idOf, got) && labelSource < |streams| && 0 < e
    requires Holds(streams, idOf, labelSource, got, slot, e)
    ensures |slot.features| == |streams| <==> forall s :: 0 <= s < |streams| ==> got[s] >= e
    ensures |slot.features| == |streams| ==>
      && (forall s :: 0 <= s < |streams| ==> e <= |streams[s]|)
      && multiset(slot.features) == Whole(streams, idOf, e, |streams|)
      && slot.lab == streams[labelSource][e - 1].lab
  {
    ContributedSize(streams, idOf, got, e, |streams|);
    assert |multiset(slot.features)| == |slot.features|;
    if |slot.features| == |streams| {
      ContributedWhole(streams, idOf, got, e, |streams|);
    }
  }

  // ------------------------------------------------------------ receive_features

  ghost predicate LevelSeq(got: seq<nat>, finished: nat, R: nat) {
    && (forall s :: 0 <= s < |got| ==> finished <= got[s] <= finished + R)
    && (exists s :: 0 <= s < |got| && got[s] == finished)
  }

  /** After one more message from `s` either every source has sent that example, and it is the next one, or
      some source is still level with the finished examples. */
  lemma LevelStep(got: seq<nat>, s: nat, finished: nat, R: nat)
    requires LevelSeq(got, finished, R) && s < |got| && got[s] < finished + R
    ensures var got' := got[s := got[s] + 1];
      if forall t :: 0 <= t < |got| ==> got'[t] >= got[s] + 1
      then got[s] == finished && LevelSeq(got', finished + 1, R)
      else LevelSeq(got', finished, R)
  {
    var got' := got[s := got[s] + 1];
    var t :| 0 <= t < |got| && got[t] == finished;
    if forall t :: 0 <= t < |got| ==> got'[t] >= got[s] + 1 {
      assert got'[t] >= got[s] + 1;
      assert got'[s] == finished + 1;
    } else {
      var u :| 0 <= u < |got| && got'[u] < got[s] + 1;
      assert t != s ==> got'[t] == finished;
      assert t == s ==> got'[u] == finished;
    }
  }

  /** What a completed call hands over: one feature from every source, and the label, of example `e`. */
  ghost predicate IsExample(streams: seq<seq<Message>>, idOf: seq<nat>, labelSource: nat,
                            features: seq<Feature>, lab: real, e: nat) {
    && |streams| == |idOf| && labelSource < |streams| && 0 < e
    && (forall s :: 0 <= s < |streams| ==> e <= |streams[s]|)
    && multiset(features) == Whole(streams, idOf, e, |streams|)
    && lab == streams[labelSource][e - 1].lab
  }

  /** The message of source `s` for example `e` was just stored in the ring. */
  ghost predicate JustStored(streams: seq<seq<Message>>, idOf: seq<nat>, labelSource: nat, was: seq<nat>,
                             got: seq<nat>, pes: seq<Partial>, finished: nat, s: nat) {
    && |pes| > 0 && s < |was| == |streams| && labelSource < |streams| && was[s] < finished + |pes|
    && got == was[s := was[s] + 1] && ReadsOk(streams, idOf, got)
    && LevelSeq(was, finished, |pes|) && RingHolds(streams, idOf, labelSource, got, pes, finished)
  }

  /** The slot is complete exactly when every source has got that far. */
  lemma SlotCount(streams: seq<seq<Message>>, idOf: seq<nat>, labelSource: nat, was: seq<nat>,
                  got: seq<nat>, pes: seq<Partial>, finished: nat, s: nat)
    requires JustStored(streams, idOf, labelSource, was, got, pes, finished, s)
    ensures var slot := pes[got[s] % |pes|];
      if |slot.features| == |streams| then
        && got[s] == finished + 1 && LevelSeq(got, finished + 1, |pes|)
        && IsExample(streams, idOf, labelSource, slot.features, slot.lab, got[s])
      else LevelSeq(got, finished, |pes|)
  {
    LevelStep(was, s, finished, |pes|);
    assert Holds(streams, idOf, labelSource, got, pes[got[s] % |pes|], got[s]);
    hide Holds, RingHolds, Whole, Contributed, LevelSeq;
    Complete(streams, idOf, labelSource, got, pes[got[s] % |pes|], got[s], finished);
  }

  /** Handing the complete example over. */
  lemma HandOver(streams: seq<seq<Message>>, idOf: seq<nat>, labelSource: nat, was: seq<nat>,
                 got: seq<nat>, pes: seq<Partial>, finished: nat, s: nat)
    requires JustStored(streams, idOf, labelSource, was, got, pes, finished, s)
    requires |pes[got[s] % |pes|].features| == |streams|
    ensures got[s] == finished + 1
    ensures RingHolds(streams, idOf, labelSource, got,
                      pes[got[s] % |pes| := pes[got[s] % |pes|].(features := [])], finished + 1)
    ensures forall t :: 0 <= t < |got| ==> got[t] < finished + 1 + |pes|
  {
    SlotCount(streams, idOf, labelSource, was, got, pes, finished, s);
    hide RingHolds, Whole, IsExample;
    ResetKeeps(streams, idOf, labelSource, got, pes, finished);
  }

  function Elements(fs: seq<nat>): (all: set<nat>)
    ensures forall f :: f in all <==> f in fs
  {
    set f | f in fs
  }

  lemma {:induction false} DistinctSize(fs: seq<nat>)
    requires forall i, j :: 0 <= i < j < |fs| ==> fs[i] != fs[j]
    ensures |Elements(fs)| == |fs|
  {
    if fs == [] {
      assert Elements(fs) == {};
    } else {
      var n := |fs| - 1;
      var front, x := fs[..n], fs[n];
      DistinctSize(front);
      hide Elements;
      assert x !in front;
      assert fs == front + [x];
      assert Elements(fs) == Elements(front) + {x};
    }
  }

  lemma {:induction false} SmallSet(all: set<nat>, K: nat)
    requires forall f :: f in all ==> f < K
    ensures |all| <= K
  {
    if K == 0 {
      assert all == {};
    } else {
      SmallSet(all - {K - 1}, K - 1);
    }
  }

  /** As many distinct numbers below `K` as there can be include every one. */
  lemma Onto(fs: seq<nat>, s: nat)
    requires forall i, j :: 0 <= i < j < |fs| ==> fs[i] != fs[j]
    requires (forall i :: 0 <= i < |fs| ==> fs[i] < |fs|) && s < |fs|
    ensures s in fs
  {
    DistinctSize(fs);
    var all := Elements(fs);
    assert s !in all ==> |all + {s}| == |all| + 1;
    SmallSet(all + {s}, |fs|);
  }

  /** Parallel arrays that list every source once, the `active` open ones first; a closed one has been read to its
      end. */
  ghost predicate Table(streams: seq<seq<Message>>, idOf: seq<nat>, got: seq<nat>,
                        files: seq<nat>, ids: seq<nat>, counts: seq<nat>, active: int) {
    && |streams| == |idOf| == |got| == |files| == |ids| == |counts| && 0 <= active <= |files|
    && (forall i :: 0 <= i < |files| ==> files[i] < |streams|)
    && (forall i, j :: 0 <= i < j < |files| ==> files[i] != files[j])
    && (forall i :: 0 <= i < |files| ==> ids[i] == idOf[files[i]] && counts[i] == got[files[i]])
    && (forall i :: active <= i < |files| ==> got[files[i]] == |streams[files[i]]|)
  }

  function Swap(s: seq<nat>, i: nat, j: nat): (t: seq<nat>)
    requires i < |s| && j < |s|
    ensures |t| == |s| && forall k :: 0 <= k < |s| ==> t[k] == if k == j then s[i] else if k == i then s[j] else s[k]
  {
    s[i := s[j]][j := s[i]]
  }

  lemma SwapKeepsTable(streams: seq<seq<Message>>, idOf: seq<nat>, got: seq<nat>,
                       files: seq<nat>, ids: seq<nat>, counts: seq<nat>, active: int, i: nat)
    requires Table(streams, idOf, got, files, ids, counts, active) && i < active
    requires got[files[i]] == |streams[files[i]]|
    ensures Table(streams, idOf, got, Swap(files, i, active - 1), Swap(ids, i, active - 1),
                  Swap(counts, i, active - 1), active - 1)
  {
    hide Swap;
  }

  /**
   * In the middle of a sweep over the open sockets: behind `index`, `fds` holds exactly those that may run
   * further ahead; from `index` on, only such.
   */
  ghost predicate Swept(files: seq<nat>, counts: seq<nat>, active: int, limit: nat, fds: set<nat>, index: nat) {
    && index <= active <= |files| == |counts|
    && (forall i :: 0 <= i < index ==> (files[i] in fds <==> counts[i] < limit))
    && (forall i :: index <= i < active && files[i] in fds ==> counts[i] < limit)
    && (forall f :: f in fds ==> exists i :: 0 <= i < active && files[i] == f)
  }

  /** The socket at `index` sent a message and leaves the watch if that takes it to the limit. */
  lemma MessageSwept(files: seq<nat>, counts: seq<nat>, active: int, limit: nat, fds: set<nat>, index: nat)
    requires Swept(files, counts, active, limit, fds, index) && index < active && files[index] in fds
    requires forall i, j :: 0 <= i < j < |files| ==> files[i] != files[j]
    ensures Swept(files, counts[index := counts[index] + 1], active, limit,
                  if counts[index] + 1 == limit then fds - {files[index]} else fds, index + 1)
  {
    var fds' := if counts[index] + 1 == limit then fds - {files[index]} else fds;
    forall i | 0 <= i < active && i != index ensures files[i] in fds' <==> files[i] in fds {
      if i < index { assert files[i] != files[index]; } else { assert files[index] != files[i]; }
    }
    forall f | f in fds' ensures exists i :: 0 <= i < active && files[i] == f {
      assert f in fds;
    }
  }

  class Joiner {
    // what the sources send, and who they are
    const streams: seq<seq<Message>>
    const idOf: seq<nat>
    const labelSource: nat

    var files: seq<nat>         // the sockets, those that have ended at the back
    var ids: seq<nat>
    var counts: seq<nat>
    var numFinished: nat
    var pes: seq<Partial>
    var finishedCount: nat
    var got: seq<nat>           // how much of each stream has been read from its socket

    /** The sources still open. */
    function Active(): int
      reads this
    {
      |files| - numFinished
    }

    /** The parallel arrays list every source once, and a closed source has been read to its end. */
    ghost predicate Arrays()
      reads this
    {
      && 0 < |streams| == |files| == |ids| == |counts| && numFinished <= |files|
      && ReadsOk(streams, idOf, got) && InOrder(streams) && labelSource < |streams|
      && Table(streams, idOf, got, files, ids, counts, Active())
    }

    /** No source is behind the finished examples or a ring size ahead; one is exactly level with them. */
    ghost predicate Level()
      reads this
    {
      LevelSeq(got, finishedCount, |pes|)
    }

    /** A source is closed only while it may still be read, so less than a ring ahead. */
    ghost predicate ClosedNear()
      reads this
    {
      |counts| == |files| && forall i :: 0 <= i < |files| && Active() <= i ==> counts[i] < finishedCount + |pes|
    }

    ghost predicate Valid()
      reads this
    {
      && Arrays() && |pes| > 0 && Level() && ClosedNear()
      && RingHolds(streams, idOf, labelSource, got, pes, finishedCount)
    }

    /** Between calls there is room for one more message from every source. */
    ghost predicate Ready()
      reads this
    {
      Valid() && forall s :: 0 <= s < |got| ==> got[s] < finishedCount + |pes|
    }

    /** How much is still to be read, and how many ends of streams are still to be seen. */
    ghost function Measure(): int
      requires Arrays()
      reads this
    {
      Left(streams, got, |streams|) + Active()
    }

    /** In the middle of a sweep. */
    ghost predicate Sweep(fds: set<nat>, index: nat)
      requires Arrays()
      reads this
    {
      Swept(files, counts, Active(), finishedCount + |pes|, fds, index)
    }

    constructor (streams: seq<seq<Message>>, idOf: seq<nat>, labelSource: nat, ringSize: nat)
      requires ringSize > 0 && InOrder(streams) && labelSource < |streams| == |idOf|
      ensures this.streams == streams && this.idOf == idOf && this.labelSource == labelSource
      ensures Ready() && finishedCount == 0 && |pes| == ringSize
    {
      this.streams, this.idOf, this.labelSource := streams, idOf, labelSource;
      files := seq(|streams|, i requires 0 <= i < |streams| => i);
      ids := idOf;
      counts := seq(|streams|, i requires 0 <= i < |streams| => 0);
      got := seq(|streams|, i requires 0 <= i < |streams| => 0);
      numFinished, finishedCount := 0, 0;
      pes := seq(ringSize, i requires 0 <= i < ringSize => Partial(0, 0.0, []));
      new;
      forall e | 0 < e <= |pes| ensures Holds(streams, idOf, labelSource, got, pes[e % |pes|], e) {
        ContributedNone(streams, idOf, got, e, |streams|);
      }
      assert got[0] == 0;
    }

    /** `select` leaves some of the sockets it was given. */
    method Select(fds: set<nat>) returns (ready: set<nat>)
      requires fds != {}
      ensures ready != {} && ready <= fds
    {
      assert fds <= fds;
      ready :| ready <= fds && ready != {};
    }

    /** A source at the end of its stream trades places with the last open one. */
    method Retire(index: nat)
      requires Valid() && index < Active() && got[files[index]] == |streams[files[index]]|
      requires counts[index] < finishedCount + |pes|
      modifies this`files, this`ids, this`counts, this`numFinished
      ensures Valid() && numFinished == old(numFinished) + 1
      ensures forall i :: 0 <= i < |files| && i != index && i != Active() ==>
                files[i] == old(files[i]) && counts[i] == old(counts[i])
      ensures files[Active()] == old(files[index])
      ensures files[index] == old(files[Active() - 1]) && counts[index] == old(counts[Active() - 1])
    {
      var target := |files| - numFinished - 1;
      SwapKeepsTable(streams, idOf, got, files, ids, counts, Active(), index);
      hide RingHolds, InOrder, ReadsOk, LevelSeq, Table, Swap;
      files := Swap(files, index, target);
      ids := Swap(ids, index, target);
      counts := Swap(counts, index, target);
      numFinished := numFinished + 1;
    }

    /** One message is read and stored in the ring; a full slot is left for the caller to hand over. */
    method Store(index: nat) returns (ringIndex: nat)
      requires Valid() && index < Active() && counts[index] < finishedCount + |pes|
      requires got[files[index]] < |streams[files[index]]|
      modifies this`counts, this`got, this`pes
      ensures got == old(got[files[index] := got[files[index]] + 1])
      ensures counts == old(counts[index := counts[index] + 1]) && |pes| == old(|pes|)
      ensures Arrays() && ClosedNear() && ringIndex == got[files[index]] % |pes|
      ensures JustStored(streams, idOf, labelSource, old(got), got, pes, finishedCount, files[index])
    {
      var src := files[index];
      var pre := streams[src][got[src]];
      var f := Feature(pre.p, ids[index]);
      assert pre.number == got[src] + 1;
      StoreKeeps(streams, idOf, labelSource, got, pes, finishedCount, src);
      hide RingHolds, InOrder, Stored;
      ringIndex := pre.number % |pes|;
      var slot := Stored(pes[ringIndex], pre.number, f, src == labelSource, pre.lab);
      assert f == Sent(streams, idOf, src, pre.number);
      counts := counts[index := counts[index] + 1];
      got := got[src := got[src] + 1];
      pes := pes[ringIndex := slot];
    }

    /** One message is read and stored; the example it completes is handed over. */
    method Take(index: nat) returns (joined: bool, features: seq<Feature>, lab: real)
      requires Valid() && index < Active() && counts[index] < finishedCount + |pes|
      requires got[files[index]] < |streams[files[index]]|
      modifies this`counts, this`got, this`pes, this`finishedCount
      ensures got == old(got[files[index] := got[files[index]] + 1])
      ensures counts == old(counts[index := counts[index] + 1]) && |pes| == old(|pes|)
      ensures joined ==> Ready() && finishedCount == old(finishedCount) + 1
      ensures joined ==> IsExample(streams, idOf, labelSource, features, lab, finishedCount)
      ensures !joined ==> Valid() && finishedCount == old(finishedCount)
    {
      var ringIndex := Store(index);
      joined := |pes[ringIndex].features| == |files|;
      features, lab := pes[ringIndex].features, pes[ringIndex].lab;
      SlotCount(streams, idOf, labelSource, old(got), got, pes, finishedCount, files[index]);
      if joined {
        HandOver(streams, idOf, labelSource, old(got), got, pes, finishedCount, files[index]);
        hide JustStored, RingHolds, LevelSeq, InOrder, ReadsOk, IsExample;
        pes := pes[ringIndex := pes[ringIndex].(features := [])];
        finishedCount := finishedCount + 1;
      }
    }

    /** `Visit` for a socket that is readable because its stream has ended. */
    method VisitEnd(index: nat, watched: set<nat>) returns (fds: set<nat>)
      requires Valid() && Sweep(watched, index) && index < Active()
      requires files[index] in watched && got[files[index]] == |streams[files[index]]|
      modifies this`files, this`ids, this`counts, this`numFinished
      ensures Valid() && Sweep(fds, index) && Active() == old(Active()) - 1
    {
      fds := watched - {files[index]};
      Retire(index);
    }

    /** `Visit` for a socket with a message; a source that is now a ring ahead is taken off the watch. */
    method VisitMessage(index: nat, watched: set<nat>)
      returns (fds: set<nat>, joined: bool, features: seq<Feature>, lab: real)
      requires Valid() && Sweep(watched, index) && index < Active()
      requires files[index] in watched && got[files[index]] < |streams[files[index]]|
      modifies this`counts, this`got, this`pes, this`finishedCount
      ensures |pes| == old(|pes|)
      ensures joined ==> Ready() && finishedCount == old(finishedCount) + 1
      ensures joined ==> IsExample(streams, idOf, labelSource, features, lab, finishedCount)
      ensures !joined ==> Valid() && Sweep(fds, index + 1) && finishedCount == old(finishedCount)
      ensures !joined ==> Measure() < old(Measure())
    {
      hide RingHolds, LevelSeq, IsExample, Left, InOrder;
      var sock, number, limit := files[index], counts[index] + 1, finishedCount + |pes|;
      LeftStep(streams, got, sock, |streams|);
      MessageSwept(files, counts, Active(), limit, watched, index);
      fds := if number == limit then watched - {sock} else watched;
      hide Table, Swept, ReadsOk;
      joined, features, lab := Take(index);
    }

    /** `Visit` for a socket that was not readable: it is watched again unless a ring ahead. */
    method VisitIdle(index: nat, watched: set<nat>) returns (fds: set<nat>)
      requires Valid() && Sweep(watched, index) && index < Active() && files[index] !in watched
      ensures Sweep(fds, index + 1) && watched <= fds
    {
      fds := if counts[index] < finishedCount + |pes| then watched + {files[index]} else watched;
    }

    /** One round of the inner loop of `receive_features`. */
    method Visit(start: nat, watched: set<nat>)
      returns (index: nat, fds: set<nat>, joined: bool, features: seq<Feature>, lab: real)
      requires Valid() && Sweep(watched, start) && start < Active()
      modifies this`files, this`ids, this`numFinished, this`counts, this`got, this`pes, this`finishedCount
      ensures |pes| == old(|pes|)
      ensures joined ==> Ready() && finishedCount == old(finishedCount) + 1
      ensures joined ==> IsExample(streams, idOf, labelSource, features, lab, finishedCount)
      ensures !joined ==> Valid() && Sweep(fds, index) && finishedCount == old(finishedCount)
      ensures !joined ==> Active() - index < old(Active()) - start
      ensures !joined && old(files[start]) in watched ==> Measure() < old(Measure())
      ensures !joined && old(files[start]) !in watched ==>
                Measure() == old(Measure()) && files == old(files) && Active() == old(Active())
                && index == start + 1 && watched <= fds
    {
      hide RingHolds, LevelSeq, IsExample, Left, Sweep;
      index, fds, joined, features, lab := start, watched, false, [], 0.0;
      assert files[index] < |streams| && |got| == |streams|;
      if files[index] !in fds {
        fds := VisitIdle(index, fds);
        index := index + 1;
      } else if got[files[index]] == |streams[files[index]]| {
        fds := VisitEnd(index, fds);
      } else {
        fds, joined, features, lab := VisitMessage(index, fds);
        index := index + 1;
      }
    }

    /** The socket is still to come in the sweep. */
    ghost predicate Ahead(sock: nat, index: nat)
      requires Arrays()
      reads this
    {
      exists i :: index <= i < Active() && files[i] == sock
    }

    /** One pass over the open sockets after a `select`. */
    method SweepAll(watched: set<nat>) returns (fds: set<nat>, joined: bool, features: seq<Feature>, lab: real)
      requires Valid() && Sweep(watched, 0) && watched != {}
      modifies this`files, this`ids, this`numFinished, this`counts, this`got, this`pes, this`finishedCount
      ensures |pes| == old(|pes|)
      ensures joined ==> Ready() && finishedCount == old(finishedCount) + 1
      ensures joined ==> IsExample(streams, idOf, labelSource, features, lab, finishedCount)
      ensures !joined ==> Valid() && finishedCount == old(finishedCount) && Active() >= 0 && Sweep(fds, Active())
      ensures !joined ==> Measure() < old(Measure())
    {
      fds, joined, features, lab := watched, false, [], 0.0;
      var index: nat := 0;
      ghost var sock :| sock in fds;
      assert Ahead(sock, 0);
      hide RingHolds, LevelSeq, IsExample, Left, Sweep, Ahead;
      while index < |files| - numFinished
        invariant Valid() && finishedCount == old(finishedCount) && |pes| == old(|pes|)
        invariant Sweep(fds, index) && index <= Active()
        invariant Measure() < old(Measure()) || (Measure() == old(Measure()) && sock in fds && Ahead(sock, index))
        decreases Active() - index
      {
        index, fds, joined, features, lab := Visit(index, fds);
        if joined { return; }
        SweepBounds(fds, index);
      }
    }

    lemma SweepBounds(fds: set<nat>, index: nat)
      requires Arrays() && Sweep(fds, index)
      ensures index <= Active()
    {
    }

    lemma SweepAgain(fds: set<nat>, index: nat, ready: set<nat>)
      requires Arrays() && index == Active() && Sweep(fds, index) && ready <= fds
      ensures Sweep(ready, 0)
    {
    }

    /** At the end of a sweep nothing is watched only when every open source is a ring ahead. */
    lemma NothingWatched(index: nat)
      requires Valid() && index == Active() && Sweep({}, index)
      ensures forall i :: 0 <= i < Active() ==> counts[i] == finishedCount + |pes|
    {
    }

    /**
     * `receive_features`: the next example in order, or the end once every source has ended. It waits for
     * ever only when every open source is a full ring ahead of the finished examples.
     */
    method ReceiveFeatures() returns (r: Received)
      requires Ready()
      modifies this`files, this`ids, this`numFinished, this`counts, this`got, this`pes, this`finishedCount
      ensures |pes| == old(|pes|)
      ensures r.Joined? ==> Ready() && finishedCount == old(finishedCount) + 1
      ensures r.Joined? ==> IsExample(streams, idOf, labelSource, r.features, r.lab, finishedCount)
      ensures !r.Joined? ==> Valid() && finishedCount == old(finishedCount)
      ensures r.Finished? ==> Active() == 0
      ensures r.Blocked? ==> Active() > 0 && forall i :: 0 <= i < Active() ==> counts[i] == finishedCount + |pes|
    {
      var fds := set i | 0 <= i < |files| - numFinished :: files[i];
      assert Sweep(fds, |files| - numFinished);
      hide RingHolds, LevelSeq, IsExample, Left, Sweep;
      while |files| > numFinished
        invariant Valid() && finishedCount == old(finishedCount) && |pes| == old(|pes|)
        invariant Sweep(fds, |files| - numFinished)
        decreases Measure()
      {
        if fds == {} {
          NothingWatched(|files| - numFinished);
          return Blocked;
        }
        var ready := Select(fds);
        SweepAgain(fds, |files| - numFinished, ready);
        var joined, features, lab;
        fds, joined, features, lab := SweepAll(ready);
        if joined {
          return Joined(features, lab);
        }
      }
      return Finished;
    }

    // ------------------------------------------------------------ whole runs

    /** When nothing more comes, some source has ended level with the finished examples. */
    lemma ShortestEnded() returns (s: nat)
      requires Valid() && (Active() == 0 || forall i :: 0 <= i < Active() ==> counts[i] == finishedCount + |pes|)
      ensures s < |streams| && |streams[s]| == finishedCount
    {
      s :| 0 <= s < |got| && got[s] == finishedCount;
      Onto(files, s);
      var i :| 0 <= i < |files| && files[i] == s;
      assert counts[i] == finishedCount;
    }

    /**
     * All calls of a run. Every example that all sources sent is handed over, once and in order. The run
     * comes to an end if and only if no source sends a ring size more than the shortest one.
     */
    method JoinAll() returns (out: seq<Received>, ended: bool)
      requires Ready() && finishedCount == 0
      modifies this`files, this`ids, this`numFinished, this`counts, this`got, this`pes, this`finishedCount
      ensures forall k :: 0 <= k < |out| ==>
                out[k].Joined? && IsExample(streams, idOf, labelSource, out[k].features, out[k].lab, k + 1)
      ensures (forall s :: 0 <= s < |streams| ==> |out| <= |streams[s]|)
      ensures exists s :: 0 <= s < |streams| && |out| == |streams[s]|
      ensures ended <==> forall s :: 0 <= s < |streams| ==> |streams[s]| < |out| + old(|pes|)
    {
      out := [];
      while true
        invariant Ready() && finishedCount == |out| && |pes| == old(|pes|)
        invariant forall k :: 0 <= k < |out| ==>
                    out[k].Joined? && IsExample(streams, idOf, labelSource, out[k].features, out[k].lab, k + 1)
        invariant forall s :: 0 <= s < |streams| ==> |out| <= |streams[s]|
        decreases |streams[0]| - |out|
      {
        var r := ReceiveFeatures();
        if !r.Joined? {
          ended := r.Finished?;
          ghost var s := ShortestEnded();
          EndedIff(ended);
          return;
        }
        out := out + [r];
      }
    }

    lemma EndedIff(ended: bool)
      requires Valid() && (ended ==> Active() == 0)
      requires !ended ==> Active() > 0 && forall i :: 0 <= i < Active() ==> counts[i] == finishedCount + |pes|
      ensures ended <==> forall s :: 0 <= s < |streams| ==> |streams[s]| < finishedCount + |pes|
    {
      if ended {
        forall s | 0 <= s < |streams| ensures |streams[s]| < finishedCount + |pes| {
          Onto(files, s);
          var i :| 0 <= i < |files| && files[i] == s;
          assert counts[i] < finishedCount + |pes|;
        }
      } else {
        assert |streams[files[0]]| >= counts[0] == finishedCount + |pes|;
      }
    }
  }
}
