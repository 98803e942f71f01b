/** `metricEntry` and its `metricStateMap` of prometheus/metric.go: all the
    states of one metric name, grouped in collision chains under the hash of
    their label sets. */
module MetricEntry {
  import opened Kinds
  import opened Model
  import opened MetricState

  class Entry {
    const kind: Kind
    const name: string
    const help: string
    /** Sample names cached for histograms; empty for every other kind. */
    const bucketName: string
    const sumName: string
    const countName: string
    /** The label hash (`labels.hash`), left uninterpreted. */
    const hash: Labels -> Hash
    var states: map<Hash, seq<State>>
    /** The values this entry holds. */
    ghost var Contents: EntryVal
    /** The states this entry owns. */
    ghost var Repr: set<State>

    /** Every state is owned and sits in the chain of its own hash, and no
        chain holds a label set twice: at most one state per series. */
    ghost predicate Chained()
      reads this
    {
      && (forall k, i | k in states && 0 <= i < |states[k]| ::
            states[k][i] in Repr && hash(states[k][i].labels) == k)
      && (forall k, i, j | k in states && 0 <= i < j < |states[k]| ::
            states[k][i].labels != states[k][j].labels)
    }

    /** The chains are well formed and `Contents` is what they hold. */
    ghost predicate Valid()
      reads this, Repr
    {
      && Chained()
      && Contents.kind == kind && Contents.name == name && Contents.help == help
      && Contents.bucketName == bucketName && Contents.sumName == sumName && Contents.countName == countName
      && Contents.chains.Keys == states.Keys
      && (forall k | k in states :: Contents.chains[k] == Snapshots(states[k]))
    }

    /** The object invariant is the value-level invariant of entries. */
    lemma ContentsWellFormed()
      requires Valid()
      ensures WellFormed(Contents, hash)
    {
      forall k, i | k in Contents.chains && 0 <= i < |Contents.chains[k]|
        ensures hash(Contents.chains[k][i].labels) == k
      {
        assert Contents.chains[k][i].labels == states[k][i].labels;
      }
      forall k, i, j | k in Contents.chains && 0 <= i < j < |Contents.chains[k]|
        ensures Contents.chains[k][i].labels != Contents.chains[k][j].labels
      {
        assert Contents.chains[k][i].labels == states[k][i].labels;
        assert Contents.chains[k][j].labels == states[k][j].labels;
      }
    }

    /** The chain under `key`; a missing key reads as an empty chain. */
    function ChainOf(key: Hash): seq<State>
      reads this
    {
      if key in states then states[key] else []
    }

    /** `newMetricEntry`. */
    constructor (kind: Kind, name: string, help: string, hash: Labels -> Hash)
      ensures Valid() && Repr == {} && this.hash == hash
      ensures Contents == NewEntry(kind, name, help)
    {
      this.kind, this.name, this.help, this.hash := kind, name, help, hash;
      if kind == Histogram {
        bucketName, sumName, countName := name + "_bucket", name + "_sum", name + "_count";
      } else {
        bucketName, sumName, countName := "", "", "";
      }
      states := map[];
      Contents := NewEntry(kind, name, help);
      Repr := {};
    }

    /** `metricStateMap.find`: the first state of the chain under `key` whose
        labels equal `labels`, or null. */
    method Find(key: Hash, labels: Labels) returns (s: State?)
      ensures Position(LabelsOf(Snapshots(ChainOf(key))), labels).None? ==> s == null
      ensures Position(LabelsOf(Snapshots(ChainOf(key))), labels).Some? ==>
        s == ChainOf(key)[Position(LabelsOf(Snapshots(ChainOf(key))), labels).value]
    {
      var c := ChainOf(key);
      for i := 0 to |c|
        invariant forall j :: 0 <= j < i ==> c[j].labels != labels
      {
        if c[i].labels == labels {
          assert Position(LabelsOf(Snapshots(c)), labels) == Some(i);
          return c[i];
        }
      }
      return null;
    }

    /** `metricStateMap.put`: chain `s` at the end of the chain under `key`. */
    method Put(key: Hash, s: State)
      modifies this
      ensures states == old(states)[key := old(ChainOf(key)) + [s]]
      ensures Repr == old(Repr) && Contents == old(Contents)
    {
      states := states[key := ChainOf(key) + [s]];
    }

    /** `metricEntry.lookup`: the state of `labels`, created and chained under
        the hash of `labels` only when no state of that chain has those labels. */
    method Lookup(labels: Labels) returns (s: State)
      requires Valid()
      modifies this
      ensures Valid()
      ensures s.labels == labels
      ensures Repr == old(Repr) + {s}
      ensures s !in old(Repr) ==> fresh(s)
      ensures Contents == EntryLookup(old(Contents), hash, labels)
      ensures hash(labels) in states
      ensures LookupIndex(old(Contents), hash, labels) < |states[hash(labels)]|
      ensures states[hash(labels)][LookupIndex(old(Contents), hash, labels)] == s
      ensures Series(old(Contents), hash, labels).Some? ==> states == old(states) && s in old(Repr)
      ensures Series(old(Contents), hash, labels).None? ==> fresh(s)
    {
      var key := hash(labels);
      var found := Find(key, labels);
      if found == null {
        MissingSeries(key, labels);
        s := Install(key, labels);
      } else {
        FoundSeries(key, labels, found);
        s := found;
      }
    }

    /** A state `find` returns is an owned state of the series of `labels`,
        which `EntryLookup` leaves as it is. */
    lemma FoundSeries(key: Hash, labels: Labels, s: State)
      requires Valid() && key == hash(labels)
      requires Position(LabelsOf(Snapshots(ChainOf(key))), labels).Some?
      requires s == ChainOf(key)[Position(LabelsOf(Snapshots(ChainOf(key))), labels).value]
      ensures key in states && s in Repr && s.labels == labels
      ensures Series(Contents, hash, labels).Some? && EntryLookup(Contents, hash, labels) == Contents
      ensures LookupIndex(Contents, hash, labels) < |states[key]| && states[key][LookupIndex(Contents, hash, labels)] == s
    {
      assert Snapshots(ChainOf(key)) == Chain(Contents, key);
    }

    /** When `find` returns null, no state of the chain has `labels`, and
        `EntryLookup` chains a fresh state at its end. */
    lemma MissingSeries(key: Hash, labels: Labels)
      requires Valid() && key == hash(labels)
      requires Position(LabelsOf(Snapshots(ChainOf(key))), labels).None?
      ensures forall j :: 0 <= j < |ChainOf(key)| ==> ChainOf(key)[j].labels != labels
      ensures Series(Contents, hash, labels).None? && LookupIndex(Contents, hash, labels) == |ChainOf(key)|
      ensures EntryLookup(Contents, hash, labels)
        == Contents.(chains := Contents.chains[key := Chain(Contents, key) + [NewState(labels)]])
    {
      assert Snapshots(ChainOf(key)) == Chain(Contents, key);
      assert forall j :: 0 <= j < |ChainOf(key)| ==> ChainOf(key)[j].labels == LabelsOf(Snapshots(ChainOf(key)))[j];
    }

    /** The creating half of `metricEntry.lookup`: `newMetricState(labels)`,
        put at the end of the chain under `key`. */
    method Install(key: Hash, labels: Labels) returns (s: State)
      requires Valid() && key == hash(labels)
      requires forall j :: 0 <= j < |ChainOf(key)| ==> ChainOf(key)[j].labels != labels
      modifies this
      ensures Valid() && fresh(s) && s.labels == labels
      ensures Repr == old(Repr) + {s}
      ensures states == old(states)[key := old(ChainOf(key)) + [s]]
      ensures Contents == old(Contents).(chains := old(Contents).chains[key := Chain(old(Contents), key) + [NewState(labels)]])
    {
      s := new State(labels);
      Put(key, s);
      Repr := Repr + {s};
      Contents := Contents.(chains := Contents.chains[key := Chain(Contents, key) + [s.Snapshot()]]);
      ValidAfterAppend(this, s, key);
    }

    /** The body of `metricStore.update` once the entry has been found: look
        up the state of `m.labels` and apply the observation to it. */
    method Observe(m: Metric, bounds: seq<real>, ftoa: real -> string) returns (ghost s: State)
      requires Valid()
      modifies this, Repr
      ensures Valid()
      ensures Repr == old(Repr) + {s} && (s !in old(Repr) ==> fresh(s))
      ensures Contents == EntryUpdate(old(Contents), hash, ftoa, m, bounds)
    {
      ghost var e1 := Contents;
      var state := Lookup(m.labels);
      s := state;
      ghost var i := LookupIndex(e1, hash, m.labels);
      ghost var e2 := Contents;
      Step(state, hash(m.labels), i, m, bounds, ftoa);
      SteppedIsEntryUpdate(e1, hash, ftoa, m, bounds, e2, i);
    }

    /** Apply the observation `m` to `s`, the state at position `i` of the
        chain under `key`: only that snapshot changes, to what
        `metricState.update` makes of it. */
    method Step(s: State, ghost key: Hash, ghost i: nat, m: Metric, bounds: seq<real>, ftoa: real -> string)
      requires Valid() && key in states && i < |states[key]| && states[key][i] == s
      modifies this, s
      ensures Valid() && states == old(states) && Repr == old(Repr)
      ensures Contents == old(Contents).(chains := old(Contents).chains[key :=
        old(Contents).chains[key][i := StateStep(old(Contents).chains[key][i], m.kind, m.value, m.time, bounds, ftoa)]])
    {
      ghost var e := Contents;
      assert e.chains[key][i] == s.Snapshot();
      label BeforeState:
      s.Update(m.kind, m.value, m.time, bounds, ftoa);
      Contents := e.(chains := e.chains[key := e.chains[key][i := s.Snapshot()]]);
      ValidAfterStateUpdate@BeforeState(this, s, i);
    }

    /** The inner loop of `metricEntry.collect`: appends the samples of the
        states of one chain, in chain order. */
    method CollectChain(metrics: seq<Metric>, c: seq<State>, ghost v: EntryVal, ghost vc: seq<StateVal>)
      returns (r: seq<Metric>)
      requires v.kind == kind && v.name == name && v.help == help
      requires v.bucketName == bucketName && v.sumName == sumName && v.countName == countName
      requires vc == Snapshots(c)
      ensures r == metrics + ChainSamples(v, vc)
    {
      r := metrics;
      for j := 0 to |c|
        invariant r == metrics + ChainSamples(v, vc[..j])
      {
        ghost var r0 := r;
        r := c[j].Collect(r, kind, name, help, bucketName, sumName, countName);
        ChainSamplesSnoc(v, vc, j, metrics, r0, r);
      }
      assert vc[..|c|] == vc;
    }

    /** `metricEntry.collect`: appends the samples of every state, chain by
        chain, visiting the chains in an unspecified order. */
    method Collect(metrics: seq<Metric>) returns (r: seq<Metric>)
      requires Valid()
      ensures |metrics| <= |r| && r[..|metrics|] == metrics
      ensures multiset(r[|metrics|..]) == EntrySamples(Contents)
    {
      ghost var v := Contents;
      r := metrics;
      ghost var done: set<Hash> := {};
      ghost var order: seq<Hash> := [];
      var todo := states.Keys;
      while todo != {}
        invariant done + todo == v.chains.Keys && done !! todo
        invariant Enumerates(order, done)
        invariant r == metrics + SamplesInOrder(v, order)
        decreases todo
      {
        var k :| k in todo;
        ghost var r0 := r;
        r := CollectChain(r, states[k], v, v.chains[k]);
        SamplesInOrderSnoc(v, order, k, metrics, r0, r);
        EnumeratesAdd(order, done, k);
        done, todo, order := done + {k}, todo - {k}, order + [k];
      }
      SamplesInOrderAll(v, order);
      assert r[|metrics|..] == SamplesInOrder(v, order);
    }
  }

  /** After `s`, a fresh state, has been chained at the end of the chain of
      its hash, where no state has its labels, and `Contents` has gained its
      snapshot there, the entry is valid again. */
  twostate lemma ValidAfterAppend(e: Entry, new s: State, new key: Hash)
    requires key == e.hash(s.labels)
    requires old(e.Valid())
    requires e.states == old(e.states)[key := old(e.ChainOf(key)) + [s]]
    requires e.Repr == old(e.Repr) + {s}
    requires forall j :: 0 <= j < |old(e.ChainOf(key))| ==> old(e.ChainOf(key))[j].labels != s.labels
    requires forall k, j :: k in old(e.states) && 0 <= j < |old(e.states)[k]| ==> unchanged(old(e.states)[k][j])
    requires e.Contents == old(e.Contents).(chains := old(e.Contents).chains[
      key := Chain(old(e.Contents), key) + [s.Snapshot()]])
    ensures e.Valid()
  {
    ChainedAfterAppend(e, s, key);
    ChainsAfterAppend(e, s, key);
    MirrorsAfterAppend(e, s, key);
  }

  /** After an append whose snapshots are those of `ChainsAfterAppend`,
      `Contents` mirrors the chains. */
  twostate lemma MirrorsAfterAppend(e: Entry, new s: State, new key: Hash)
    requires old(e.Contents.chains.Keys == e.states.Keys)
    requires old(forall k | k in e.states :: e.Contents.chains[k] == Snapshots(e.states[k]))
    requires e.states == old(e.states)[key := old(e.ChainOf(key)) + [s]]
    requires e.Contents == old(e.Contents).(chains := old(e.Contents).chains[
      key := Chain(old(e.Contents), key) + [s.Snapshot()]])
    requires forall k :: k in e.states && k != key ==> Snapshots(e.states[k]) == old(Snapshots(e.states[k]))
    requires Snapshots(e.states[key]) == old(Snapshots(e.ChainOf(key))) + [s.Snapshot()]
    ensures e.Contents.chains.Keys == e.states.Keys
    ensures forall k | k in e.states :: e.Contents.chains[k] == Snapshots(e.states[k])
  {
    assert Chain(old(e.Contents), key) == old(Snapshots(e.ChainOf(key)));
    forall k | k in e.states
      ensures e.Contents.chains[k] == Snapshots(e.states[k])
    {
      if k != key {
        assert e.Contents.chains[k] == old(e.Contents.chains[k]);
      }
    }
  }

  /** Appending a state with new labels to the chain of its hash keeps the chains well formed. */
  twostate lemma ChainedAfterAppend(e: Entry, new s: State, new key: Hash)
    requires key == e.hash(s.labels)
    requires old(e.Chained())
    requires e.states == old(e.states)[key := old(e.ChainOf(key)) + [s]]
    requires e.Repr == old(e.Repr) + {s}
    requires forall j :: 0 <= j < |old(e.ChainOf(key))| ==> old(e.ChainOf(key))[j].labels != s.labels
    ensures e.Chained()
  {
  }

  /** After an append, the other chains hold what they held and the chain of
      `key` holds its old snapshots followed by that of `s`. */
  twostate lemma ChainsAfterAppend(e: Entry, new s: State, new key: Hash)
    requires e.states == old(e.states)[key := old(e.ChainOf(key)) + [s]]
    requires forall k, j :: k in old(e.states) && 0 <= j < |old(e.states)[k]| ==> unchanged(old(e.states)[k][j])
    ensures forall k :: k in e.states && k != key ==> Snapshots(e.states[k]) == old(Snapshots(e.states[k]))
    ensures Snapshots(e.states[key]) == old(Snapshots(e.ChainOf(key))) + [s.Snapshot()]
  {
    var c0 := old(e.ChainOf(key));
    forall k | k in e.states && k != key
      ensures Snapshots(e.states[k]) == old(Snapshots(e.states[k]))
    {
      SnapshotsUnchanged(e.states[k]);
    }
    SnapshotsUnchanged(c0);
    assert (c0 + [s])[..|c0|] == c0;
  }

  /** No state other than the one at index `i` of chain `key` is `s`. */
  lemma OnlyPosition(e: Entry, s: State, i: nat)
    requires e.Chained()
    requires e.hash(s.labels) in e.states
    requires i < |e.states[e.hash(s.labels)]| && e.states[e.hash(s.labels)][i] == s
    ensures forall k, j :: k in e.states && 0 <= j < |e.states[k]| && (k != e.hash(s.labels) || j != i) ==>
      e.states[k][j] != s
  {
    var key := e.hash(s.labels);
    forall k, j | k in e.states && 0 <= j < |e.states[k]| && (k != key || j != i)
      ensures e.states[k][j] != s
    {
      if k == key {
        if j < i {
          assert e.states[k][j].labels != e.states[k][i].labels;
        } else {
          assert e.states[k][i].labels != e.states[k][j].labels;
        }
      } else {
        assert e.hash(e.states[k][j].labels) == k;
      }
    }
  }

  /** After `s`, the state at position `i` of its chain, has changed and no
      other state has, and `Contents` holds its new snapshot there, the entry
      is valid again. */
  twostate lemma ValidAfterStateUpdate(e: Entry, new s: State, new i: nat)
    requires old(e.Valid())
    requires e.states == old(e.states) && e.Repr == old(e.Repr)
    requires e.hash(s.labels) in e.states
    requires i < |e.states[e.hash(s.labels)]| && e.states[e.hash(s.labels)][i] == s
    requires unchanged(e.Repr - {s})
    requires e.Contents == old(e.Contents).(chains := old(e.Contents).chains[
      e.hash(s.labels) := old(e.Contents).chains[e.hash(s.labels)][i := s.Snapshot()]])
    ensures e.Valid()
  {
    assert e.Chained();
    OnlyPosition(e, s, i);
    forall k, j | k in e.states && 0 <= j < |e.states[k]| && e.states[k][j] != s
      ensures unchanged(e.states[k][j])
    {
      assert e.states[k][j] in e.Repr - {s};
    }
    var key := e.hash(s.labels);
    ChainsAfterStateUpdate(e, s, key, i);
    forall k | k in e.states
      ensures e.Contents.chains[k] == Snapshots(e.states[k])
    {
      if k == key {
        assert old(e.Contents.chains[k]) == old(Snapshots(e.states[k]));
      } else {
        assert e.Contents.chains[k] == old(e.Contents.chains[k]) == old(Snapshots(e.states[k]));
      }
    }
  }

  /** After only `s` has changed, the other chains hold what they held and
      the chain of `s` differs in its snapshot only. */
  twostate lemma ChainsAfterStateUpdate(e: Entry, new s: State, new key: Hash, new i: nat)
    requires e.states == old(e.states) && key == e.hash(s.labels) && key in e.states
    requires i < |e.states[key]| && e.states[key][i] == s
    requires forall k, j :: k in e.states && 0 <= j < |e.states[k]| && (k != key || j != i) ==> e.states[k][j] != s
    requires forall k, j :: k in e.states && 0 <= j < |e.states[k]| && e.states[k][j] != s ==> unchanged(e.states[k][j])
    ensures forall k :: k in e.states && k != key ==> Snapshots(e.states[k]) == old(Snapshots(e.states[k]))
    ensures Snapshots(e.states[key]) == old(Snapshots(e.states[key]))[i := s.Snapshot()]
  {
    forall k | k in e.states && k != key
      ensures Snapshots(e.states[k]) == old(Snapshots(e.states[k]))
    {
      SnapshotsUnchanged(e.states[k]);
    }
    SnapshotsChangedAt(e.states[key], i);
  }
}
