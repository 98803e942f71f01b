/** `metricStore` of prometheus/metric.go: the root of the hierarchy, one
    entry per metric name. The source guards each level with a lock and
    re-checks under the write lock before creating; run one operation at a
    time, each lookup below is the single check those two reduce to. */
module MetricStore {
  import opened Kinds
  import opened Model
  import opened MetricState
  import opened MetricEntry

  /** The entry under `n` lies in the footprint `R` with its states, is
      filed under its own name, shares the store's hash and is valid. */
  ghost predicate EntryOwned(entries: map<string, Entry>, hash: Labels -> Hash, R: set<object>, n: string)
    reads R
  {
    && n in entries && entries[n] in R && entries[n].Repr <= R
    && entries[n].name == n && entries[n].hash == hash && entries[n].Valid()
  }

  /** The entries under `n` and `n'` share no state. */
  ghost predicate Apart(entries: map<string, Entry>, R: set<object>, n: string, n': string)
    reads R
  {
    n in entries && n' in entries && entries[n] in R && entries[n'] in R && entries[n].Repr !! entries[n'].Repr
  }

  /** `C` holds at `n` what the entry under `n` holds. */
  ghost predicate Mirrors(entries: map<string, Entry>, R: set<object>, C: StoreVal, n: string)
    reads R
  {
    n in entries && n in C && entries[n] in R && C[n] == entries[n].Contents
  }

  /** Every entry of `entries` is owned within `R`, no two of them share a
      state, and `C` is what they hold. Each fact about one entry is
      instantiated only where a proof names it. */
  ghost predicate Filed(entries: map<string, Entry>, hash: Labels -> Hash, R: set<object>, C: StoreVal)
    reads R
  {
    && (forall n {:trigger EntryOwned(entries, hash, R, n)} :: n in entries ==> EntryOwned(entries, hash, R, n))
    && (forall n, n' {:trigger Apart(entries, R, n, n')} ::
          n in entries && n' in entries && n != n' ==> Apart(entries, R, n, n'))
    && C.Keys == entries.Keys
    && (forall n {:trigger Mirrors(entries, R, C, n)} :: n in entries ==> Mirrors(entries, R, C, n))
  }

  class Store {
    /** The label hash (`labels.hash`), left uninterpreted. */
    const hash: Labels -> Hash
    /** The boundary formatter `ftoa`, left uninterpreted. */
    const ftoa: real -> string
    var entries: map<string, Entry>
    /** The values this store holds. */
    ghost var Contents: StoreVal
    /** The entries and states this store owns. */
    ghost var Repr: set<object>

    /** The entries are owned and `Contents` is what they hold. */
    ghost predicate Valid()
      reads this, Repr
    {
      this !in Repr && Filed(entries, hash, Repr, Contents)
    }

    /** A store with no entries (the source's zero value, whose nil map the
        first lookup allocates). */
    constructor (hash: Labels -> Hash, ftoa: real -> string)
      ensures Valid() && this.hash == hash && this.ftoa == ftoa
      ensures Contents == map[]
    {
      this.hash, this.ftoa := hash, ftoa;
      entries := map[];
      Contents := map[];
      Repr := {};
    }

    /** `metricStore.lookup`: the entry of `name`, replaced by a fresh empty
        entry when it is missing or has another kind. */
    method Lookup(kind: Kind, name: string, help: string) returns (entry: Entry)
      requires Valid()
      modifies this
      ensures Valid()
      ensures Repr == old(Repr) + {entry} && (entry !in old(Repr) ==> fresh(entry)) && entry.Repr <= old(Repr)
      ensures name in entries && entries[name] == entry
      ensures Contents == StoreLookup(old(Contents), kind, name, help)
      ensures old(name in entries && entries[name].kind == kind) ==> entry == old(entries[name])
      ensures !old(name in entries && entries[name].kind == kind) ==> fresh(entry) && entry.Repr == {}
    {
      if name in entries && entries[name].kind == kind {
        entry := entries[name];
        assert EntryOwned(entries, hash, Repr, name) && Mirrors(entries, Repr, Contents, name);
      } else {
        if name in entries {
          assert EntryOwned(entries, hash, Repr, name) && Mirrors(entries, Repr, Contents, name);
        }
        ghost var others := Others(entries, name);
        OthersApart(this, name);
        entry := new Entry(kind, name, help, hash);
        FiledAfterInstall(this, entry, name, others);
        entries := entries[name := entry];
        Refile(Repr + {entry}, Contents[name := entry.Contents]);
        InstalledIsLookup(old(Contents), kind, name, help, entry.Contents);
      }
    }

    /** `metricStore.update`: find or create the entry, then the state, then
        apply the observation to that state. */
    method Update(m: Metric, bounds: seq<real>)
      requires Valid()
      modifies this, Repr
      ensures Valid()
      ensures fresh(Repr - old(Repr))
      ensures Contents == StoreUpdate(old(Contents), hash, ftoa, m, bounds)
    {
      var entry := Lookup(m.kind, m.name, m.help);
      ghost var s := Apply(entry, m, bounds);
      assert s in old(Repr) || fresh(s);
      GrownFresh(this, entry, s);
    }

    /** The second half of `metricStore.update`: apply `m` to the state of
        `m.labels` in `entry`, the entry filed under `m.name`. */
    method Apply(entry: Entry, m: Metric, bounds: seq<real>) returns (ghost s: State)
      requires Valid() && m.name in entries && entries[m.name] == entry
      modifies this, entry, entry.Repr
      ensures Valid()
      ensures Repr == old(Repr) + {s} && (s in old(entry.Repr) || fresh(s))
      ensures Contents == old(Contents)[m.name := EntryUpdate(old(Contents)[m.name], hash, ftoa, m, bounds)]
    {
      ghost var others := Others(entries, m.name);
      OthersApart(this, m.name);
      assert EntryOwned(entries, hash, Repr, m.name) && Mirrors(entries, Repr, Contents, m.name);
      s := entry.Observe(m, bounds, ftoa);
      FiledAfterEntryChange(this, entry, s, m.name, others);
      Refile(Repr + {s}, Contents[m.name := entry.Contents]);
    }

    /** Records `R` and `C` as this store's footprint and values, once they
        are known to file its entries. */
    ghost method Refile(R: set<object>, C: StoreVal)
      requires this !in R && Filed(entries, hash, R, C)
      modifies this
      ensures Valid() && Repr == R && Contents == C && entries == old(entries)
    {
      Repr, Contents := R, C;
    }

    /** `metricStore.collect`: appends the samples of every entry, visiting
        the entries in an unspecified order. */
    method Collect(metrics: seq<Metric>) returns (r: seq<Metric>)
      requires Valid()
      ensures |metrics| <= |r| && r[..|metrics|] == metrics
      ensures multiset(r[|metrics|..]) == StoreSamples(Contents)
    {
      ghost var v := Contents;
      r := metrics;
      ghost var done: set<string> := {};
      ghost var order: seq<string> := [];
      var todo := entries.Keys;
      while todo != {}
        invariant done + todo == v.Keys && done !! todo
        invariant Enumerates(order, done)
        invariant |metrics| <= |r| && r[..|metrics|] == metrics
        invariant multiset(r[|metrics|..]) == InOrder(EntryParts(v), order)
        decreases todo
      {
        var n :| n in todo;
        assert EntryOwned(entries, hash, Repr, n) && Mirrors(entries, Repr, Contents, n);
        ghost var r0 := r;
        r := entries[n].Collect(r);
        AppendAfter(metrics, r0, r);
        InOrderSnoc(EntryParts(v), order, n);
        EnumeratesAdd(order, done, n);
        done, todo, order := done + {n}, todo - {n}, order + [n];
      }
      InOrderAll(EntryParts(v), order, v.Keys);
    }
  }

  /** The entries of `entries` other than the one under `name`, and their states. */
  ghost function Others(entries: map<string, Entry>, name: string): set<object>
    reads entries.Values
  {
    (set n | n in entries && n != name :: entries[n] as object)
    + (set n, x | n in entries && n != name && x in entries[n].Repr :: x as object)
  }

  /** The other entries and their states are apart from the entry under
      `name` and its states, and none of them is the store. */
  lemma OthersApart(st: Store, name: string)
    requires st.Valid()
    ensures name in st.entries ==>
      Others(st.entries, name) !! ({st.entries[name] as object} + st.entries[name].Repr)
    ensures name in st.entries ==> st !in {st.entries[name] as object} + st.entries[name].Repr
    ensures Others(st.entries, name) <= st.Repr
  {
    forall x | x in Others(st.entries, name)
      ensures x in st.Repr
      ensures name in st.entries ==> x != st.entries[name] && x !in st.entries[name].Repr
    {
      var n :| n in st.entries && n != name && (x == st.entries[n] || x in st.entries[n].Repr);
      assert EntryOwned(st.entries, st.hash, st.Repr, n);
      if name in st.entries {
        assert EntryOwned(st.entries, st.hash, st.Repr, name);
        assert Apart(st.entries, st.Repr, n, name);
      }
    }
  }

  /** Once a fresh, empty, valid entry `e` exists for `name` and nothing else
      has changed, filing it is a valid store. */
  twostate lemma FiledAfterInstall(st: Store, new e: Entry, new name: string, new others: set<object>)
    requires old(st.Valid()) && unchanged(st)
    requires fresh(e) && e.Valid() && e.Repr == {} && e.name == name && e.hash == st.hash
    requires others == old(Others(st.entries, name)) && unchanged(others)
    ensures Filed(st.entries[name := e], st.hash, st.Repr + {e}, st.Contents[name := e.Contents])
  {
    var es, R, C := st.entries[name := e], st.Repr + {e}, st.Contents[name := e.Contents];
    OwnedAfterChange(st, e, name, others, es, R);
    forall n | n in es ensures Mirrors(es, R, C, n) {
      if n != name {
        assert old(Mirrors(st.entries, st.Repr, st.Contents, n));
        assert st.entries[n] in others;
      }
    }
  }

  /** Once the entry `e` under `name` has changed and gained at most the state
      `s`, fresh unless it already held it, and nothing else has changed,
      the store with `s` added is valid. */
  twostate lemma FiledAfterEntryChange(st: Store, new e: Entry, new s: State, new name: string, new others: set<object>)
    requires old(st.Valid()) && unchanged(st)
    requires name in st.entries && e == st.entries[name] && e.Valid()
    requires e.Repr == old(e.Repr) + {s} && (s !in old(e.Repr) ==> fresh(s))
    requires others == old(Others(st.entries, name)) && unchanged(others)
    requires others !! ({e as object} + old(e.Repr))
    ensures Filed(st.entries, st.hash, st.Repr + {s}, st.Contents[name := e.Contents])
  {
    var R, C := st.Repr + {s}, st.Contents[name := e.Contents];
    assert old(EntryOwned(st.entries, st.hash, st.Repr, name));
    assert st.entries[name := e] == st.entries;
    OwnedAfterChange(st, e, name, others, st.entries, R);
    forall n | n in st.entries ensures Mirrors(st.entries, R, C, n) {
      if n != name {
        assert old(Mirrors(st.entries, st.Repr, st.Contents, n));
        assert st.entries[n] in others;
      }
    }
  }

  /** Filing a valid `e` under `name`, apart from the other entries and their
      states, none of which has changed, in a footprint that covers the old
      one and `e`'s, keeps every entry owned and apart. */
  twostate lemma OwnedAfterChange(st: Store, new e: Entry, new name: string, new others: set<object>,
                                  new es: map<string, Entry>, new R: set<object>)
    requires old(st.Valid()) && unchanged(st) && es == st.entries[name := e]
    requires e.Valid() && e.name == name && e.hash == st.hash
    requires e in R && e.Repr <= R && st.Repr <= R
    requires others == old(Others(st.entries, name)) && unchanged(others)
    requires others !! ({e as object} + e.Repr)
    ensures forall n | n in es :: EntryOwned(es, st.hash, R, n)
    ensures forall n, n' | n in es && n' in es && n != n' :: Apart(es, R, n, n')
  {
    forall n | n in es && n != name
      ensures EntryOwned(es, st.hash, R, n) && es[n] in others && es[n].Repr <= others
    {
      assert old(EntryOwned(st.entries, st.hash, st.Repr, n));
      var d := st.entries[n];
      assert d in others;
      assert d.Repr <= others;
      EntryFramed(d);
    }
    forall n, n' | n in es && n' in es && n != n' ensures Apart(es, R, n, n') {
      if n != name && n' != name {
        assert old(Apart(st.entries, st.Repr, n, n'));
      }
    }
  }

  /** A store that has gained at most `a` and `b`, each fresh unless it
      already held it, has gained only fresh objects. */
  twostate lemma GrownFresh(st: Store, new a: object, new b: object)
    requires st.Repr == old(st.Repr) + {a} + {b}
    requires (a in old(st.Repr) || fresh(a)) && (b in old(st.Repr) || fresh(b))
    ensures fresh(st.Repr - old(st.Repr))
  {
  }

  /** An entry none of whose objects has changed is still valid. */
  twostate lemma EntryFramed(e: Entry)
    requires old(e.Valid()) && unchanged(e) && unchanged(e.Repr)
    ensures e.Valid()
  {
  }
}
