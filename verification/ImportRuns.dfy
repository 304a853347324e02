/**
 * One import descriptor for each run of slots (normalize_module_runs in crates/pe/src/dumper/import_rebuild.rs).
 */
module ImportRuns {
  import opened Options
  import opened Words
  import opened ImportTable
  import opened ImportBuilder

  /** A thunk and the name of the module it was recorded under. */
  datatype Owned = Owned(name: bytes, thunk: Thunk)

  function Last<T>(s: seq<T>): T
    requires s != []
  {
    s[|s| - 1]
  }

  function Front<T>(s: seq<T>): seq<T>
    requires s != []
  {
    s[..|s| - 1]
  }

  // ---- Flattened, each address once, in order ---------------------------------------------------------

  function Tagged(name: bytes, ts: seq<Thunk>): (r: seq<Owned>)
    ensures |r| == |ts| && forall k :: 0 <= k < |ts| ==> r[k] == Owned(name, ts[k])
  {
    seq(|ts|, k requires 0 <= k < |ts| => Owned(name, ts[k]))
  }

  function Flat(ms: seq<Module>): seq<Owned>
  {
    if ms == [] then [] else Flat(Front(ms)) + Tagged(Last(ms).name, Last(ms).thunks)
  }

  function Addresses(os: seq<Owned>): set<u32> { set o | o in os :: o.thunk.iatAddress }

  /** Of thunks at one address the first. */
  function Unique(os: seq<Owned>): seq<Owned>
  {
    if os == [] then []
    else if Last(os).thunk.iatAddress in Addresses(Front(os)) then Unique(Front(os))
    else Unique(Front(os)) + [Last(os)]
  }

  function InsertByAddress(os: seq<Owned>, o: Owned): seq<Owned>
  {
    if os == [] || o.thunk.iatAddress < os[0].thunk.iatAddress then [o] + os
    else [os[0]] + InsertByAddress(os[1..], o)
  }

  /** The library's stable sort. */
  function Sorted(os: seq<Owned>): seq<Owned>
  {
    if os == [] then [] else InsertByAddress(Sorted(Front(os)), Last(os))
  }

  // ---- Runs and clusters ------------------------------------------------------------------------------

  /** Address a is that of the slot behind the module's last one. */
  predicate Follows(m: Module, a: nat, w: nat) { m.thunks != [] && Last(m.thunks).iatAddress + w == a }

  function AddToRuns(runs: seq<Module>, o: Owned, w: nat): seq<Module>
  {
    if runs != [] && Last(runs).name == o.name && Follows(Last(runs), o.thunk.iatAddress, w)
    then Front(runs) + [Module(o.name, Last(runs).thunks + [o.thunk])]
    else runs + [Module(o.name, [o.thunk])]
  }

  /** The maximal runs of one module's slots, one behind the other. */
  function RunsOf(os: seq<Owned>, w: nat): seq<Module>
  {
    if os == [] then [] else AddToRuns(RunsOf(Front(os), w), Last(os), w)
  }

  /** The run starts where the terminator of the cluster's last run would stand. */
  predicate Touches(cluster: seq<Module>, run: Module, w: nat)
  {
    cluster != [] && run.thunks != [] && Follows(Last(cluster), run.thunks[0].iatAddress, w)
  }

  function AddToClusters(cs: seq<seq<Module>>, run: Module, w: nat): seq<seq<Module>>
  {
    if cs != [] && Touches(Last(cs), run, w) then Front(cs) + [Last(cs) + [run]] else cs + [[run]]
  }

  function ClustersOf(runs: seq<Module>, w: nat): seq<seq<Module>>
  {
    if runs == [] then [] else AddToClusters(ClustersOf(Front(runs), w), Last(runs), w)
  }

  // ---- The module a cluster is described under --------------------------------------------------------

  predicate HasAddress(ts: seq<Thunk>, a: u32) { exists k :: 0 <= k < |ts| && ts[k].iatAddress == a }

  /** The module under which the cluster has the address. */
  function SelfModule(cluster: seq<Module>, a: u32): bytes
  {
    if cluster == [] then []
    else if HasAddress(cluster[0].thunks, a) then cluster[0].name
    else SelfModule(cluster[1..], a)
  }

  /** Whether a module of that name exports that function. */
  type Exports = (bytes, bytes) -> bool

  /** A name has to be exported by the candidate; an ordinal has to be the candidate's own. */
  predicate Expressible(valid: Exports, cand: bytes, cluster: seq<Module>, t: Thunk)
  {
    if t.name.Some? then valid(cand, t.name.value) else t.ordinal.Some? && cand == SelfModule(cluster, t.iatAddress)
  }

  predicate CoversRun(valid: Exports, cand: bytes, cluster: seq<Module>, run: Module)
  {
    forall k :: 0 <= k < |run.thunks| ==> Expressible(valid, cand, cluster, run.thunks[k])
  }

  predicate CoversAll(valid: Exports, cand: bytes, cluster: seq<Module>)
  {
    forall r :: 0 <= r < |cluster| ==> CoversRun(valid, cand, cluster, cluster[r])
  }

  /** The first module of runs under which the whole cluster can be described. */
  function Chosen(valid: Exports, cluster: seq<Module>, runs: seq<Module>): Option<bytes>
  {
    if runs == [] then None
    else
      var before := Chosen(valid, cluster, Front(runs));
      if before.Some? then before
      else if CoversAll(valid, Last(runs).name, cluster) then Some(Last(runs).name) else None
  }

  function Merged(cluster: seq<Module>): seq<Thunk>
  {
    if cluster == [] then [] else Merged(Front(cluster)) + Last(cluster).thunks
  }

  /** A cluster of one run keeps its module; one of more gets the chosen module or no descriptor at all. */
  function Described(valid: Exports, cluster: seq<Module>): Option<Module>
  {
    if |cluster| == 1 then Some(cluster[0])
    else
      match Chosen(valid, cluster, cluster)
      case Some(name) => Some(Module(name, Merged(cluster)))
      case None => None
  }

  function DescribedAll(valid: Exports, cs: seq<seq<Module>>): seq<Module>
  {
    if cs == [] then []
    else
      var d := Described(valid, Last(cs));
      DescribedAll(valid, Front(cs)) + if d.Some? then [d.value] else []
  }

  function InOrder(ms: seq<Module>): seq<Owned> { Sorted(Unique(Flat(ms))) }

  function Normalized(valid: Exports, ms: seq<Module>, w: nat): seq<Module>
  {
    DescribedAll(valid, ClustersOf(RunsOf(InOrder(ms), w), w))
  }

  // ---- The normalization as the program runs it -------------------------------------------------------

  lemma {:induction false} Snoc<T>(s: seq<T>, i: nat)
    requires i < |s|
    ensures s[..i + 1] == s[..i] + [s[i]] && s[..i + 1] != []
    ensures Front(s[..i + 1]) == s[..i] && Last(s[..i + 1]) == s[i]
  {
  }

  lemma {:induction false} AddressesSnoc(os: seq<Owned>, o: Owned)
    ensures Addresses(os + [o]) == Addresses(os) + {o.thunk.iatAddress}
  {
    forall a | a in Addresses(os) + {o.thunk.iatAddress} ensures a in Addresses(os + [o]) {
      if a == o.thunk.iatAddress {
        assert o in os + [o];
      } else {
        var p :| p in os && p.thunk.iatAddress == a;
        assert p in os + [o];
      }
    }
  }

  lemma {:induction false} UniqueSnoc(os: seq<Owned>, o: Owned)
    ensures Unique(os + [o])
         == if o.thunk.iatAddress in Addresses(os) then Unique(os) else Unique(os) + [o]
  {
    assert Front(os + [o]) == os;
  }

  /** The thunks of all modules, those at an address already seen left out. */
  method FlattenModules(ms: seq<Module>) returns (all: seq<Owned>)
    ensures all == Unique(Flat(ms))
  {
    hide Unique, Addresses;
    all := [];
    var seen: set<u32> := {};
    UniqueNone();
    for i := 0 to |ms|
      invariant all == Unique(Flat(ms[..i])) && seen == Addresses(Flat(ms[..i]))
    {
      Snoc(ms, i);
      ghost var before := Flat(ms[..i]);
      var name, ts := ms[i].name, ms[i].thunks;
      assert before + Tagged(name, ts[..0]) == before;
      for j := 0 to |ts|
        invariant all == Unique(before + Tagged(name, ts[..j])) && seen == Addresses(before + Tagged(name, ts[..j]))
      {
        ghost var os, o := before + Tagged(name, ts[..j]), Owned(name, ts[j]);
        assert before + Tagged(name, ts[..j + 1]) == os + [o];
        UniqueSnoc(os, o);
        AddressesSnoc(os, o);
        if ts[j].iatAddress !in seen {
          seen := seen + {ts[j].iatAddress};
          all := all + [Owned(name, ts[j])];
        }
      }
      assert ts[..|ts|] == ts;
    }
    assert ms[..|ms|] == ms;
  }

  lemma {:induction false} UniqueNone()
    ensures Unique([]) == [] && Addresses([]) == {}
  {
  }

  method FindRuns(all: seq<Owned>, w: nat) returns (runs: seq<Module>)
    ensures runs == RunsOf(all, w)
  {
    runs := [];
    for i := 0 to |all|
      invariant runs == RunsOf(all[..i], w)
    {
      Snoc(all, i);
      var o := all[i];
      if runs != [] && Last(runs).name == o.name && Follows(Last(runs), o.thunk.iatAddress, w) {
        runs := runs[|runs| - 1 := Module(o.name, Last(runs).thunks + [o.thunk])];
      } else {
        runs := runs + [Module(o.name, [o.thunk])];
      }
    }
    assert all[..|all|] == all;
  }

  method FindClusters(runs: seq<Module>, w: nat) returns (clusters: seq<seq<Module>>)
    ensures clusters == ClustersOf(runs, w)
  {
    hide Touches;
    clusters := [];
    for i := 0 to |runs|
      invariant clusters == ClustersOf(runs[..i], w)
    {
      Snoc(runs, i);
      if clusters != [] && Touches(Last(clusters), runs[i], w) {
        clusters := clusters[|clusters| - 1 := Last(clusters) + [runs[i]]];
        continue;
      }
      clusters := clusters + [[runs[i]]];
    }
    assert runs[..|runs|] == runs;
  }

  predicate NameAmong(runs: seq<Module>, name: bytes) { exists r :: 0 <= r < |runs| && runs[r].name == name }

  /** A name that has been tried and found wanting need not be tried again. */
  lemma {:induction false} ChosenTried(valid: Exports, cluster: seq<Module>, runs: seq<Module>)
    ensures forall r :: 0 <= r < |runs| && CoversAll(valid, runs[r].name, cluster) ==>
      Chosen(valid, cluster, runs).Some?
    decreases |runs|
  {
    hide CoversAll;
    if runs != [] {
      ChosenTried(valid, cluster, Front(runs));
      forall r | 0 <= r < |runs| && CoversAll(valid, runs[r].name, cluster) ensures Chosen(valid, cluster, runs).Some? {
        if r < |runs| - 1 {
          assert Front(runs)[r] == runs[r];
        }
      }
    }
  }

  /** The names of the cluster, each once, are tried in order. */
  method ChooseModule(valid: Exports, cluster: seq<Module>) returns (chosen: Option<bytes>)
    ensures chosen == Chosen(valid, cluster, cluster)
  {
    hide CoversAll;
    var candidates: seq<bytes> := [];
    for r := 0 to |cluster|
      invariant forall n :: n in candidates <==> NameAmong(cluster[..r], n)
      invariant FirstName(valid, cluster, candidates) == Chosen(valid, cluster, cluster[..r])
    {
      Snoc(cluster, r);
      NameAmongSnoc(cluster, r);
      ChosenTried(valid, cluster, cluster[..r]);
      var name := cluster[r].name;
      if name !in candidates {
        FirstSnoc(valid, cluster, candidates, name);
        candidates := candidates + [name];
      }
    }
    assert cluster[..|cluster|] == cluster;
    chosen := None;
    for c := 0 to |candidates|
      invariant chosen == None == FirstName(valid, cluster, candidates[..c])
    {
      Snoc(candidates, c);
      FirstSnoc(valid, cluster, candidates[..c], candidates[c]);
      if CoversAll(valid, candidates[c], cluster) {
        FirstStays(valid, cluster, candidates, c + 1);
        return Some(candidates[c]);
      }
    }
    assert candidates[..|candidates|] == candidates;
  }

  /** The first of the names under which the whole cluster can be described. */
  function FirstName(valid: Exports, cluster: seq<Module>, names: seq<bytes>): Option<bytes>
  {
    if names == [] then None
    else
      var before := FirstName(valid, cluster, Front(names));
      if before.Some? then before else if CoversAll(valid, Last(names), cluster) then Some(Last(names)) else None
  }

  lemma {:induction false} FirstSnoc(valid: Exports, cluster: seq<Module>, names: seq<bytes>, n: bytes)
    ensures var before := FirstName(valid, cluster, names);
      FirstName(valid, cluster, names + [n])
      == if before.Some? then before else if CoversAll(valid, n, cluster) then Some(n) else None
  {
    hide CoversAll;
    assert Front(names + [n]) == names;
  }

  lemma {:induction false} FirstStays(valid: Exports, cluster: seq<Module>, names: seq<bytes>, c: nat)
    requires c <= |names| && FirstName(valid, cluster, names[..c]).Some?
    ensures FirstName(valid, cluster, names) == FirstName(valid, cluster, names[..c])
    decreases |names|
  {
    hide CoversAll;
    if c < |names| {
      assert Front(names)[..c] == names[..c];
      FirstStays(valid, cluster, Front(names), c);
    } else {
      assert names[..c] == names;
    }
  }

  lemma {:induction false} NameAmongSnoc(runs: seq<Module>, i: nat)
    requires i < |runs|
    ensures forall n :: NameAmong(runs[..i + 1], n) <==> NameAmong(runs[..i], n) || n == runs[i].name
  {
    forall n | NameAmong(runs[..i], n) || n == runs[i].name ensures NameAmong(runs[..i + 1], n) {
      if NameAmong(runs[..i], n) {
        var r :| 0 <= r < |runs[..i]| && runs[..i][r].name == n;
        assert runs[..i + 1][r].name == n;
      } else {
        assert runs[..i + 1][i].name == n;
      }
    }
  }

  method MergeThunks(cluster: seq<Module>) returns (thunks: seq<Thunk>)
    ensures thunks == Merged(cluster)
  {
    thunks := [];
    for r := 0 to |cluster|
      invariant thunks == Merged(cluster[..r])
    {
      Snoc(cluster, r);
      thunks := thunks + cluster[r].thunks;
    }
    assert cluster[..|cluster|] == cluster;
  }

  /** The builder's modules give way to one per run that can be described. */
  method NormalizeModuleRuns(builder: ImportTableBuilder, valid: Exports)
    modifies builder
    ensures builder.modules == Normalized(valid, old(builder.modules), PtrSize(builder.is64bit))
  {
    hide ClustersOf, RunsOf, Unique, Sorted, Chosen, Merged;
    var w := PtrSize(builder.is64bit);
    var all := FlattenModules(builder.modules);
    all := Sorted(all);
    var runs := FindRuns(all, w);
    var clusters := FindClusters(runs, w);
    var out: seq<Module> := [];
    for c := 0 to |clusters|
      invariant out == DescribedAll(valid, clusters[..c])
    {
      Snoc(clusters, c);
      var cluster := clusters[c];
      if |cluster| == 1 {
        out := out + [cluster[0]];
        continue;
      }
      var chosen := ChooseModule(valid, cluster);
      if chosen.Some? {
        var thunks := MergeThunks(cluster);
        out := out + [Module(chosen.value, thunks)];
      }
    }
    assert clusters[..|clusters|] == clusters;
    builder.modules := out;
  }

  // ---- Each recorded address once, in order -----------------------------------------------------------

  ghost predicate Distinct(os: seq<Owned>)
  {
    forall i, j :: 0 <= i < j < |os| ==> os[i].thunk.iatAddress != os[j].thunk.iatAddress
  }

  ghost predicate Rising(os: seq<Owned>)
  {
    forall i, j :: 0 <= i < j < |os| ==> os[i].thunk.iatAddress < os[j].thunk.iatAddress
  }

  lemma {:induction false} UniqueAre(os: seq<Owned>)
    ensures Distinct(Unique(os)) && Addresses(Unique(os)) == Addresses(os)
    ensures forall o :: o in Unique(os) ==> o in os
    decreases |os|
  {
    hide Addresses;
    if os == [] {
    } else {
      var u, o := Unique(Front(os)), Last(os);
      assert os == Front(os) + [o];
      UniqueAre(Front(os));
      UniqueSnoc(Front(os), o);
      AddressesSnoc(Front(os), o);
      AddressesSnoc(u, o);
      if o.thunk.iatAddress in Addresses(Front(os)) {
        AbsorbAddress(Addresses(Front(os)), o.thunk.iatAddress);
      } else {
        NewDistinct(u, o);
      }
    }
  }

  lemma {:induction false} AbsorbAddress(s: set<u32>, a: u32)
    requires a in s
    ensures s + {a} == s
  {
  }

  lemma {:induction false} NewDistinct(u: seq<Owned>, o: Owned)
    requires Distinct(u) && o.thunk.iatAddress !in Addresses(u)
    ensures Distinct(u + [o])
  {
    forall i | 0 <= i < |u| ensures u[i].thunk.iatAddress != o.thunk.iatAddress {
      assert u[i] in u;
    }
  }

  ghost predicate Above(os: seq<Owned>, a: int) { forall k :: 0 <= k < |os| ==> a < os[k].thunk.iatAddress }

  lemma {:induction false} InsertAbove(os: seq<Owned>, o: Owned, a: int)
    requires Above(os, a) && a < o.thunk.iatAddress
    ensures Above(InsertByAddress(os, o), a)
    decreases |os|
  {
    if os != [] && os[0].thunk.iatAddress <= o.thunk.iatAddress {
      InsertAbove(os[1..], o, a);
    }
  }

  lemma {:induction false} InsertRises(os: seq<Owned>, o: Owned)
    requires Rising(os) && forall k :: 0 <= k < |os| ==> os[k].thunk.iatAddress != o.thunk.iatAddress
    ensures Rising(InsertByAddress(os, o))
    decreases |os|
  {
    if os == [] {
    } else if o.thunk.iatAddress < os[0].thunk.iatAddress {
      RisingCons(o, os);
    } else {
      InsertRises(os[1..], o);
      InsertAbove(os[1..], o, os[0].thunk.iatAddress);
      RisingCons(os[0], InsertByAddress(os[1..], o));
    }
  }

  lemma {:induction false} InsertAdds(os: seq<Owned>, o: Owned)
    ensures multiset(InsertByAddress(os, o)) == multiset(os) + multiset{o}
    decreases |os|
  {
    if os == [] || o.thunk.iatAddress < os[0].thunk.iatAddress {
      assert multiset([o] + os) == multiset{o} + multiset(os);
    } else {
      InsertAdds(os[1..], o);
      assert os == [os[0]] + os[1..];
    }
  }

  lemma {:induction false} RisingCons(o: Owned, os: seq<Owned>)
    requires Rising(os) && Above(os, o.thunk.iatAddress)
    ensures Rising([o] + os)
  {
  }

  lemma {:induction false} SortedRises(os: seq<Owned>)
    requires Distinct(os)
    ensures Rising(Sorted(os)) && multiset(Sorted(os)) == multiset(os)
    decreases |os|
  {
    hide InsertByAddress;
    if os != [] {
      var o := Last(os);
      SortedRises(Front(os));
      assert os == Front(os) + [o];
      forall k | 0 <= k < |Sorted(Front(os))| ensures Sorted(Front(os))[k].thunk.iatAddress != o.thunk.iatAddress {
        assert Sorted(Front(os))[k] in multiset(Front(os));
      }
      InsertRises(Sorted(Front(os)), o);
      InsertAdds(Sorted(Front(os)), o);
    }
  }

  /** In order, each recorded address once, with the first thunk recorded for it. */
  lemma {:induction false} OrderedSlots(ms: seq<Module>)
    ensures Rising(InOrder(ms))
    ensures forall o :: o in InOrder(ms) ==> o in Flat(ms)
    ensures forall o :: o in InOrder(ms) <==> o in Unique(Flat(ms))
    ensures Addresses(InOrder(ms)) == Addresses(Flat(ms))
  {
    hide Unique, Sorted, Flat;
    var u := Unique(Flat(ms));
    UniqueAre(Flat(ms));
    SortedRises(u);
    forall o ensures o in Sorted(u) <==> o in u {
      assert o in multiset(Sorted(u)) <==> o in multiset(u);
    }
  }

  // ---- Runs -------------------------------------------------------------------------------------------

  /** A run of slots w bytes apart. */
  ghost predicate Contiguous(ts: seq<Thunk>, w: nat)
  {
    ts != [] && forall k: nat :: k < |ts| ==> ts[k].iatAddress == ts[0].iatAddress + w * k
  }

  lemma {:induction false} ContiguousOne(t: Thunk, w: nat)
    ensures Contiguous([t], w)
  {
  }

  /** A run goes on at the slot behind it. */
  lemma {:induction false} ContiguousJoin(a: seq<Thunk>, b: seq<Thunk>, w: nat)
    requires Contiguous(a, w) && Contiguous(b, w) && Last(a).iatAddress + w == b[0].iatAddress
    ensures Contiguous(a + b, w)
  {
    var n := |a|;
    assert a[n - 1].iatAddress == a[0].iatAddress + w * (n - 1);
    assert w * n == w * (n - 1) + w;
    forall k: nat | k < |a + b| ensures (a + b)[k].iatAddress == a[0].iatAddress + w * k {
      if k >= n {
        assert (a + b)[k].iatAddress == b[0].iatAddress + w * (k - n);
        assert w * k == w * n + w * (k - n);
      }
    }
  }

  /** The runs' slots, in order. */
  lemma {:induction false} RunsKeepSlots(os: seq<Owned>, w: nat)
    ensures Flat(RunsOf(os, w)) == os
    decreases |os|
  {
    hide Follows;
    if os != [] {
      RunsKeepSlots(Front(os), w);
      assert os == Front(os) + [Last(os)];
      AddedFlat(RunsOf(Front(os), w), Last(os), w);
    }
  }

  lemma {:induction false} AddedFlat(runs: seq<Module>, o: Owned, w: nat)
    ensures Flat(AddToRuns(runs, o, w)) == Flat(runs) + [o]
  {
    hide Follows;
    if runs != [] && Last(runs).name == o.name && Follows(Last(runs), o.thunk.iatAddress, w) {
      var grown := Module(o.name, Last(runs).thunks + [o.thunk]);
      FlatSnoc(Front(runs), grown);
      assert Tagged(o.name, grown.thunks) == Tagged(o.name, Last(runs).thunks) + [o];
    } else {
      FlatSnoc(runs, Module(o.name, [o.thunk]));
      assert Tagged(o.name, [o.thunk]) == [o];
    }
  }

  lemma {:induction false} FlatSnoc(ms: seq<Module>, m: Module)
    ensures Flat(ms + [m]) == Flat(ms) + Tagged(m.name, m.thunks)
  {
    assert Front(ms + [m]) == ms;
  }

  /** Runs as they are found: each without a gap, one behind the other. */
  ghost predicate InRuns(runs: seq<Module>, w: nat)
  {
    && (forall r :: 0 <= r < |runs| ==> Contiguous(runs[r].thunks, w))
    && forall r, q :: 0 <= r < q < |runs| ==> Last(runs[r].thunks).iatAddress < runs[q].thunks[0].iatAddress
  }

  lemma {:induction false} RunsAre(os: seq<Owned>, w: nat)
    requires Rising(os)
    ensures InRuns(RunsOf(os, w), w)
    ensures os != [] ==>
      var r := RunsOf(os, w); r != [] && Last(r).thunks != [] && Last(Last(r).thunks) == Last(os).thunk
    decreases |os|
  {
    hide InRuns, AddToRuns, Contiguous;
    if os == [] {
      NoRuns(w);
    } else {
      var runs, o := RunsOf(Front(os), w), Last(os);
      RunsAre(Front(os), w);
      if Front(os) != [] {
        assert Last(Front(os)).thunk.iatAddress < o.thunk.iatAddress;
      } else {
        assert runs == [];
      }
      AddedRun(runs, o, w);
    }
  }

  /** The next run is not the same module's going on. */
  predicate Parted(m: Module, n: Module, w: nat)
  {
    && m.thunks != [] && n.thunks != []
    && (m.name != n.name || Last(m.thunks).iatAddress + w != n.thunks[0].iatAddress)
  }

  /** Runs are as long as can be. */
  lemma {:induction false} RunsMaximal(os: seq<Owned>, w: nat, r: nat)
    requires r + 1 < |RunsOf(os, w)|
    ensures Parted(RunsOf(os, w)[r], RunsOf(os, w)[r + 1], w)
    decreases |os|
  {
    var runs := RunsOf(Front(os), w);
    RunsFilled(Front(os), w);
    if r + 1 < |runs| {
      RunsMaximal(Front(os), w, r);
    }
  }

  lemma {:induction false} RunsFilled(os: seq<Owned>, w: nat)
    ensures forall r :: 0 <= r < |RunsOf(os, w)| ==> RunsOf(os, w)[r].thunks != []
    decreases |os|
  {
    hide Follows;
    if os != [] {
      RunsFilled(Front(os), w);
    }
  }

  lemma {:induction false} NoRuns(w: nat)
    ensures InRuns([], w)
  {
  }

  lemma {:induction false} AddedRun(runs: seq<Module>, o: Owned, w: nat)
    requires InRuns(runs, w)
    requires runs != [] ==> Last(runs).thunks != [] && Last(Last(runs).thunks).iatAddress < o.thunk.iatAddress
    ensures InRuns(AddToRuns(runs, o, w), w)
    ensures var r := AddToRuns(runs, o, w); r != [] && Last(r).thunks != [] && Last(Last(r).thunks) == o.thunk
  {
    hide Contiguous;
    if runs != [] {
      RunLow(runs, o.thunk.iatAddress, w);
    }
    if runs != [] && Last(runs).name == o.name && Follows(Last(runs), o.thunk.iatAddress, w) {
      ContiguousOne(o.thunk, w);
      ContiguousJoin(Last(runs).thunks, [o.thunk], w);
      var grown := Module(o.name, Last(runs).thunks + [o.thunk]);
      assert grown.thunks[0] == Last(runs).thunks[0];
      RunsEnd(Front(runs), grown, w);
    } else {
      ContiguousOne(o.thunk, w);
      RunsEnd(runs, Module(o.name, [o.thunk]), w);
    }
  }

  /** What lies behind the last run lies behind all of them. */
  lemma {:induction false} RunLow(runs: seq<Module>, a: nat, w: nat)
    requires InRuns(runs, w) && runs != [] && Last(runs).thunks != [] && Last(Last(runs).thunks).iatAddress < a
    ensures forall r :: 0 <= r < |runs| ==> runs[r].thunks != [] && Last(runs[r].thunks).iatAddress < a
  {
    hide Contiguous;
    FirstBeforeLast(Last(runs).thunks, w);
    forall r | 0 <= r < |runs| ensures runs[r].thunks != [] && Last(runs[r].thunks).iatAddress < a {
      FirstBeforeLast(runs[r].thunks, w);
      if r < |runs| - 1 {
        assert Last(runs[r].thunks).iatAddress < runs[|runs| - 1].thunks[0].iatAddress;
      }
    }
  }

  lemma {:induction false} FirstBeforeLast(ts: seq<Thunk>, w: nat)
    requires Contiguous(ts, w)
    ensures ts != [] && ts[0].iatAddress <= Last(ts).iatAddress == ts[0].iatAddress + w * (|ts| - 1)
  {
  }

  lemma {:induction false} RunsEnd(runs: seq<Module>, m: Module, w: nat)
    requires InRuns(runs, w) && Contiguous(m.thunks, w)
    requires forall r :: 0 <= r < |runs| ==>
      runs[r].thunks != [] && Last(runs[r].thunks).iatAddress < m.thunks[0].iatAddress
    ensures InRuns(runs + [m], w)
  {
    hide Contiguous;
    var all := runs + [m];
    forall r | 0 <= r < |all| ensures Contiguous(all[r].thunks, w) {
    }
  }

  // ---- Clusters ---------------------------------------------------------------------------------------

  /** Each run of the cluster starts where the one before would have its terminator. */
  ghost predicate Chained(cluster: seq<Module>, w: nat)
  {
    && cluster != [] && (forall r :: 0 <= r < |cluster| ==> Contiguous(cluster[r].thunks, w))
    && forall r :: 0 <= r < |cluster| - 1 ==> Linked(cluster[r], cluster[r + 1], w)
  }

  predicate Linked(m: Module, n: Module, w: nat) { n.thunks != [] && Follows(m, n.thunks[0].iatAddress, w) }

  lemma {:induction false} ChainedOne(run: Module, w: nat)
    requires Contiguous(run.thunks, w)
    ensures Chained([run], w)
  {
  }

  lemma {:induction false} ChainedMore(cluster: seq<Module>, run: Module, w: nat)
    requires Chained(cluster, w) && Contiguous(run.thunks, w) && Touches(cluster, run, w)
    ensures Chained(cluster + [run], w)
  {
    hide Contiguous, Follows;
    var all := cluster + [run];
    forall r | 0 <= r < |all| - 1 ensures Linked(all[r], all[r + 1], w) {
      if r < |cluster| - 1 {
        assert Linked(cluster[r], cluster[r + 1], w);
      }
    }
  }

  lemma {:induction false} ChainedRun(run: Module, w: nat)
    requires Contiguous(run.thunks, w)
    ensures run.thunks != []
  {
  }

  /** A cluster's slots are one run, from the first run's start to the last run's end. */
  lemma {:induction false} MergedContiguous(cluster: seq<Module>, w: nat)
    requires Chained(cluster, w)
    ensures Contiguous(Merged(cluster), w) && Merged(cluster) != []
    ensures cluster[0].thunks != [] && Merged(cluster)[0] == cluster[0].thunks[0]
    ensures Last(cluster).thunks != [] && Last(Merged(cluster)) == Last(Last(cluster).thunks)
    decreases |cluster|
  {
    hide Contiguous;
    ChainedRun(Last(cluster), w);
    if |cluster| == 1 {
      assert Front(cluster) == [];
      assert [] + Last(cluster).thunks == Last(cluster).thunks;
    } else {
      var front := Front(cluster);
      ChainedFront(cluster, w);
      MergedContiguous(front, w);
      assert Linked(cluster[|front| - 1], cluster[|front|], w);
      ContiguousJoin(Merged(front), Last(cluster).thunks, w);
    }
  }

  lemma {:induction false} ChainedFront(cluster: seq<Module>, w: nat)
    requires Chained(cluster, w) && |cluster| > 1
    ensures Chained(Front(cluster), w)
  {
    hide Contiguous, Follows;
  }

  function Together(cs: seq<seq<Module>>): seq<Module>
  {
    if cs == [] then [] else Together(Front(cs)) + Last(cs)
  }

  lemma {:induction false} TogetherSnoc(cs: seq<seq<Module>>, c: seq<Module>)
    ensures Together(cs + [c]) == Together(cs) + c
  {
    assert Front(cs + [c]) == cs;
  }

  /** The clusters' runs, in order. */
  lemma {:induction false} ClustersKeepRuns(runs: seq<Module>, w: nat)
    ensures Together(ClustersOf(runs, w)) == runs
    decreases |runs|
  {
    hide Touches;
    if runs != [] {
      var cs, run := ClustersOf(Front(runs), w), Last(runs);
      ClustersKeepRuns(Front(runs), w);
      assert runs == Front(runs) + [run];
      if cs != [] && Touches(Last(cs), run, w) {
        TogetherSnoc(Front(cs), Last(cs) + [run]);
      } else {
        TogetherSnoc(cs, [run]);
      }
    }
  }

  /** Where a cluster's slots start, and where its last one is. */
  function Low(cluster: seq<Module>): nat { if Merged(cluster) == [] then 0 else Merged(cluster)[0].iatAddress }

  function High(cluster: seq<Module>): nat { if Merged(cluster) == [] then 0 else Last(Merged(cluster)).iatAddress }

  /** Between any two clusters there is room for the terminator of the first. */
  ghost predicate InClusters(cs: seq<seq<Module>>, w: nat)
  {
    && (forall c :: 0 <= c < |cs| ==> Chained(cs[c], w))
    && forall c, d :: 0 <= c < d < |cs| ==> High(cs[c]) + 2 * w <= Low(cs[d])
  }

  /** Slots of one table: every address is a whole number of slots away from the others. */
  ghost predicate Aligned(runs: seq<Module>, w: nat)
  {
    forall r, q :: 0 <= r < |runs| && 0 <= q < |runs| ==> SlotsBetween(runs[r], runs[q], w)
  }

  ghost predicate SlotsBetween(m: Module, n: Module, w: nat)
  {
    m.thunks != [] && n.thunks != [] && exists d: int :: n.thunks[0].iatAddress - Last(m.thunks).iatAddress == w * d
  }

  lemma {:induction false} RoomBetween(a: nat, b: nat, w: nat, d: int)
    requires a < b && b - a == w * d && a + w != b && w > 0
    ensures a + 2 * w <= b
  {
    if d <= 0 {
      MulMono(w, 0, d);
    } else if d >= 2 {
      MulMono(w, d, 2);
    }
  }

  lemma {:induction false} ClustersAre(runs: seq<Module>, w: nat)
    requires InRuns(runs, w) && Aligned(runs, w) && w > 0
    ensures InClusters(ClustersOf(runs, w), w)
    ensures runs != [] ==> var cs := ClustersOf(runs, w);
      cs != [] && Last(runs).thunks != [] && High(Last(cs)) == Last(Last(runs).thunks).iatAddress
    decreases |runs|
  {
    hide InRuns, Aligned, InClusters, Contiguous, Touches, High, SlotsBetween, ClustersOf;
    if runs == [] {
      NoClusters(w);
    } else {
      var cs, run := ClustersOf(Front(runs), w), Last(runs);
      FrontRuns(runs, w);
      ClustersAre(Front(runs), w);
      ClustersOpen(runs, w);
      if cs != [] && Touches(Last(cs), run, w) {
        ClusterGrows(cs, run, w);
      } else {
        if cs != [] {
          ClusterRoom(Last(Front(runs)), run, cs, w);
        }
        ClusterStarts(cs, run, w);
      }
    }
  }

  lemma {:induction false} NoClusters(w: nat)
    ensures InClusters([], w) && ClustersOf([], w) == []
  {
  }

  lemma {:induction false} ClustersOpen(runs: seq<Module>, w: nat)
    requires runs != []
    ensures ClustersOf(runs, w) == AddToClusters(ClustersOf(Front(runs), w), Last(runs), w)
    ensures var cs := ClustersOf(Front(runs), w);
      ClustersOf(runs, w)
      == if cs != [] && Touches(Last(cs), Last(runs), w) then Front(cs) + [Last(cs) + [Last(runs)]]
         else cs + [[Last(runs)]]
    ensures Front(runs) == [] ==> ClustersOf(Front(runs), w) == []
  {
    hide Touches;
  }

  lemma {:induction false} FrontRuns(runs: seq<Module>, w: nat)
    requires InRuns(runs, w) && Aligned(runs, w) && runs != []
    ensures InRuns(Front(runs), w) && Aligned(Front(runs), w) && Contiguous(Last(runs).thunks, w)
    ensures Last(runs).thunks != []
    ensures Front(runs) != [] ==>
      && Last(Front(runs)).thunks != []
      && Last(Last(Front(runs)).thunks).iatAddress < Last(runs).thunks[0].iatAddress
      && SlotsBetween(Last(Front(runs)), Last(runs), w)
  {
    hide Contiguous, SlotsBetween;
    ChainedRun(Last(runs), w);
    if Front(runs) != [] {
      ChainedRun(Last(Front(runs)), w);
    }
  }

  /** A run that touches the last cluster extends it. */
  lemma {:induction false} ClusterGrows(cs: seq<seq<Module>>, run: Module, w: nat)
    requires InClusters(cs, w) && cs != [] && Contiguous(run.thunks, w) && Touches(Last(cs), run, w)
    ensures InClusters(Front(cs) + [Last(cs) + [run]], w)
    ensures run.thunks != [] && High(Last(cs) + [run]) == Last(run.thunks).iatAddress
  {
    hide Contiguous, Chained, Merged, Touches;
    var grown := Last(cs) + [run];
    ChainedMore(Last(cs), run, w);
    MergedContiguous(Last(cs), w);
    MergedContiguous(grown, w);
    ChainedSome(Last(cs), w);
    assert grown[0] == Last(cs)[0];
    assert Low(grown) == Low(Last(cs));
    SwapLast(cs, grown, w);
  }

  lemma {:induction false} ChainedSome(cluster: seq<Module>, w: nat)
    requires Chained(cluster, w)
    ensures cluster != []
  {
  }

  lemma {:induction false} SwapLast(cs: seq<seq<Module>>, grown: seq<Module>, w: nat)
    requires InClusters(cs, w) && cs != [] && Chained(grown, w) && Low(grown) == Low(Last(cs))
    ensures InClusters(Front(cs) + [grown], w)
  {
    hide Chained, Low, High;
    var r := Front(cs) + [grown];
    forall c, d | 0 <= c < d < |r| ensures High(r[c]) + 2 * w <= Low(r[d]) {
      assert High(cs[c]) + 2 * w <= Low(cs[d]);
    }
  }

  /** A run that does not touch the last cluster leaves room behind it. */
  lemma {:induction false} ClusterRoom(before: Module, run: Module, cs: seq<seq<Module>>, w: nat)
    requires cs != [] && w > 0 && InClusters(cs, w) && !Touches(Last(cs), run, w) && SlotsBetween(before, run, w)
    requires Last(before.thunks).iatAddress < run.thunks[0].iatAddress
    requires High(Last(cs)) == Last(before.thunks).iatAddress
    ensures High(Last(cs)) + 2 * w <= run.thunks[0].iatAddress
  {
    hide Contiguous, Merged, InClusters;
    ClusterAt(cs, |cs| - 1, w);
    MergedContiguous(Last(cs), w);
    ChainedSome(Last(cs), w);
    var d: int :| run.thunks[0].iatAddress - Last(before.thunks).iatAddress == w * d;
    RoomBetween(Last(before.thunks).iatAddress, run.thunks[0].iatAddress, w, d);
  }

  lemma {:induction false} ClusterAt(cs: seq<seq<Module>>, c: nat, w: nat)
    requires InClusters(cs, w) && c < |cs|
    ensures Chained(cs[c], w)
  {
    hide Chained, Low, High;
  }

  lemma {:induction false} ClusterStarts(cs: seq<seq<Module>>, run: Module, w: nat)
    requires InClusters(cs, w) && Contiguous(run.thunks, w)
    requires run.thunks != [] && (cs != [] ==> High(Last(cs)) + 2 * w <= run.thunks[0].iatAddress)
    ensures InClusters(cs + [[run]], w)
    ensures High([run]) == Last(run.thunks).iatAddress
  {
    hide Contiguous, Chained, Merged;
    ChainedOne(run, w);
    MergedContiguous([run], w);
    var r := cs + [[run]];
    assert Low([run]) == run.thunks[0].iatAddress;
    forall c, d | 0 <= c < d < |r| ensures High(r[c]) + 2 * w <= Low(r[d]) {
      HighLow(cs, c, w);
    }
  }

  /** Clusters rise. */
  lemma {:induction false} HighLow(cs: seq<seq<Module>>, c: nat, w: nat)
    requires InClusters(cs, w) && c < |cs|
    ensures High(cs[c]) <= High(Last(cs))
  {
    hide Contiguous, Chained, Merged;
    MergedContiguous(Last(cs), w);
    FirstBeforeLast(Merged(Last(cs)), w);
  }

  // ---- One descriptor, one run ------------------------------------------------------------------------

  /** A run for each module, and room for its terminator in front of the next one's. */
  ghost predicate Separated(ms: seq<Module>, w: nat)
  {
    && (forall i :: 0 <= i < |ms| ==> Contiguous(ms[i].thunks, w))
    && forall i, j :: 0 <= i < j < |ms| ==> Last(ms[i].thunks).iatAddress + 2 * w <= ms[j].thunks[0].iatAddress
  }

  ghost predicate Stems(valid: Exports, cs: seq<seq<Module>>, m: Module)
  {
    exists c :: 0 <= c < |cs| && Described(valid, cs[c]) == Some(m)
  }

  lemma {:induction false} DescribedSlots(valid: Exports, cluster: seq<Module>, m: Module)
    requires Described(valid, cluster) == Some(m)
    ensures m.thunks == Merged(cluster)
  {
    hide Chosen;
    if |cluster| == 1 {
      assert Front(cluster) == [] && Merged([]) == [] && [] + Last(cluster).thunks == Last(cluster).thunks;
    }
  }

  /** Every descriptor stems from a cluster. */
  lemma {:induction false} DescribedStem(valid: Exports, cs: seq<seq<Module>>, i: nat)
    requires i < |DescribedAll(valid, cs)|
    ensures Stems(valid, cs, DescribedAll(valid, cs)[i])
    decreases |cs|
  {
    hide Described;
    var before := DescribedAll(valid, Front(cs));
    if i < |before| {
      DescribedStem(valid, Front(cs), i);
      var c :| 0 <= c < |Front(cs)| && Described(valid, Front(cs)[c]) == Some(before[i]);
      assert cs[c] == Front(cs)[c];
    } else {
      assert Described(valid, cs[|cs| - 1]) == Some(DescribedAll(valid, cs)[i]);
    }
  }

  lemma {:induction false} StemSlots(valid: Exports, cs: seq<seq<Module>>, m: Module, w: nat) returns (c: nat)
    requires InClusters(cs, w) && Stems(valid, cs, m)
    ensures c < |cs| && Described(valid, cs[c]) == Some(m) && m.thunks == Merged(cs[c]) && m.thunks != []
    ensures Contiguous(m.thunks, w) && Low(cs[c]) == m.thunks[0].iatAddress && High(cs[c]) == Last(m.thunks).iatAddress
  {
    hide Described, Contiguous, Chained, Merged;
    c :| 0 <= c < |cs| && Described(valid, cs[c]) == Some(m);
    DescribedSlots(valid, cs[c], m);
    MergedContiguous(cs[c], w);
  }

  lemma {:induction false} FrontClusters(cs: seq<seq<Module>>, w: nat)
    requires InClusters(cs, w) && cs != []
    ensures InClusters(Front(cs), w) && forall c :: 0 <= c < |cs| - 1 ==> High(cs[c]) + 2 * w <= Low(Last(cs))
  {
    hide Chained, Low, High;
  }

  lemma {:induction false} DescribedApart(valid: Exports, cs: seq<seq<Module>>, w: nat)
    requires InClusters(cs, w)
    ensures Separated(DescribedAll(valid, cs), w)
    decreases |cs|
  {
    hide Described, InClusters, Contiguous, Low, High, Stems, Merged, Separated;
    if cs == [] {
      NoneSeparated(w);
    } else {
      FrontClusters(cs, w);
      DescribedApart(valid, Front(cs), w);
      var before, d := DescribedAll(valid, Front(cs)), Described(valid, Last(cs));
      if d.Some? {
        DescribedSlots(valid, Last(cs), d.value);
        ClusterAt(cs, |cs| - 1, w);
        MergedContiguous(Last(cs), w);
        LowIs(Last(cs));
        forall i | 0 <= i < |before|
          ensures before[i].thunks != [] && Last(before[i].thunks).iatAddress + 2 * w <= d.value.thunks[0].iatAddress
        {
          DescribedStem(valid, Front(cs), i);
          var c := StemSlots(valid, Front(cs), before[i], w);
          assert Front(cs)[c] == cs[c];
        }
        SeparatedSnoc(before, d.value, w);
      } else {
        assert before + [] == before;
      }
    }
  }

  lemma {:induction false} LowIs(cluster: seq<Module>)
    ensures Merged(cluster) != [] ==> Low(cluster) == Merged(cluster)[0].iatAddress
  {
    hide Merged;
  }

  lemma {:induction false} NoneSeparated(w: nat)
    ensures Separated([], w)
  {
  }

  lemma {:induction false} SeparatedSnoc(ms: seq<Module>, m: Module, w: nat)
    requires Separated(ms, w) && Contiguous(m.thunks, w)
    requires forall i :: 0 <= i < |ms| ==>
      ms[i].thunks != [] && Last(ms[i].thunks).iatAddress + 2 * w <= m.thunks[0].iatAddress
    ensures Separated(ms + [m], w)
  {
    hide Contiguous;
    var r := ms + [m];
    forall i | 0 <= i < |r| ensures Contiguous(r[i].thunks, w) {
    }
  }

  /** The recorded slots are those of one table: their addresses leave the same remainder. */
  ghost predicate OneTable(ms: seq<Module>, w: nat, rest: nat)
    requires w > 0
  {
    forall o :: o in Flat(ms) ==> o.thunk.iatAddress % w == rest
  }

  lemma {:induction false} WholeSlotsApart(a: nat, b: nat, w: nat)
    requires (w == 4 || w == 8) && a % w == b % w
    ensures b - a == w * ((b - a) / w)
  {
  }

  lemma {:induction false} InFlat(ms: seq<Module>, i: nat, k: nat)
    requires i < |ms| && k < |ms[i].thunks|
    ensures Owned(ms[i].name, ms[i].thunks[k]) in Flat(ms)
    decreases |ms|
  {
    if i < |ms| - 1 {
      assert Front(ms)[i] == ms[i];
      InFlat(Front(ms), i, k);
    } else {
      assert Tagged(Last(ms).name, Last(ms).thunks)[k] == Owned(ms[i].name, ms[i].thunks[k]);
    }
  }

  lemma {:induction false} RunsAligned(runs: seq<Module>, w: nat, rest: nat)
    requires (w == 4 || w == 8) && InRuns(runs, w) && OneTable(runs, w, rest)
    ensures Aligned(runs, w)
  {
    hide Contiguous, Flat;
    forall r, q | 0 <= r < |runs| && 0 <= q < |runs| ensures SlotsBetween(runs[r], runs[q], w) {
      ChainedRun(runs[r], w);
      ChainedRun(runs[q], w);
      var a, b := Last(runs[r].thunks).iatAddress, runs[q].thunks[0].iatAddress;
      InFlat(runs, r, |runs[r].thunks| - 1);
      InFlat(runs, q, 0);
      WholeSlotsApart(a, b, w);
    }
  }

  lemma {:induction false} OrderedTable(ms: seq<Module>, w: nat, rest: nat)
    requires w > 0 && OneTable(ms, w, rest)
    ensures OneTable(RunsOf(InOrder(ms), w), w, rest)
  {
    hide Flat, InOrder, RunsOf;
    OrderedSlots(ms);
    RunsKeepSlots(InOrder(ms), w);
  }

  lemma {:induction false} NormalClusters(ms: seq<Module>, w: nat, rest: nat)
    requires (w == 4 || w == 8) && OneTable(ms, w, rest)
    ensures InRuns(RunsOf(InOrder(ms), w), w) && InClusters(ClustersOf(RunsOf(InOrder(ms), w), w), w)
  {
    hide *;
    OrderedSlots(ms);
    RunsAre(InOrder(ms), w);
    OrderedTable(ms, w, rest);
    RunsAligned(RunsOf(InOrder(ms), w), w, rest);
    ClustersAre(RunsOf(InOrder(ms), w), w);
  }

  /**
   * Every descriptor is one run of slots without a gap, and the terminator behind it has a slot of its own,
   * in front of all later descriptors' slots.
   */
  lemma {:induction false} NormalizedSeparated(valid: Exports, ms: seq<Module>, w: nat, rest: nat)
    requires (w == 4 || w == 8) && OneTable(ms, w, rest)
    ensures Separated(Normalized(valid, ms, w), w)
  {
    hide InClusters, InRuns, Separated, OneTable, InOrder, ClustersOf, RunsOf, DescribedAll;
    NormalClusters(ms, w, rest);
    DescribedApart(valid, ClustersOf(RunsOf(InOrder(ms), w), w), w);
  }

  // ---- No pair is made up, and which slots are described ----------------------------------------------

  /** Slot o is one of run r's in the cluster. */
  ghost predicate SlotOfRun(cluster: seq<Module>, r: nat, o: Owned)
  {
    r < |cluster| && o.name == cluster[r].name && o.thunk in cluster[r].thunks
  }

  lemma {:induction false} MergedSlot(cluster: seq<Module>, t: Thunk) returns (r: nat)
    requires t in Merged(cluster)
    ensures r < |cluster| && t in cluster[r].thunks
    decreases |cluster|
  {
    if t in Last(cluster).thunks {
      r := |cluster| - 1;
    } else {
      r := MergedSlot(Front(cluster), t);
    }
  }

  lemma {:induction false} SlotMerged(cluster: seq<Module>, r: nat, t: Thunk)
    requires r < |cluster| && t in cluster[r].thunks
    ensures t in Merged(cluster)
    decreases |cluster|
  {
    if r < |cluster| - 1 {
      SlotMerged(Front(cluster), r, t);
    }
  }

  lemma {:induction false} ChosenCovers(valid: Exports, cluster: seq<Module>, runs: seq<Module>)
    requires Chosen(valid, cluster, runs).Some?
    ensures CoversAll(valid, Chosen(valid, cluster, runs).value, cluster)
    decreases |runs|
  {
    hide CoversAll;
    if Chosen(valid, cluster, Front(runs)).Some? {
      ChosenCovers(valid, cluster, Front(runs));
    }
  }

  lemma {:induction false} SelfIs(cluster: seq<Module>, a: u32)
    requires exists r :: 0 <= r < |cluster| && HasAddress(cluster[r].thunks, a)
    ensures exists r ::
      0 <= r < |cluster| && HasAddress(cluster[r].thunks, a) && cluster[r].name == SelfModule(cluster, a)
    decreases |cluster|
  {
    hide HasAddress;
    if HasAddress(cluster[0].thunks, a) {
    } else {
      var r :| 0 <= r < |cluster| && HasAddress(cluster[r].thunks, a);
      assert cluster[1..][r - 1] == cluster[r];
      SelfIs(cluster[1..], a);
      var q :| 0 <= q < |cluster[1..]| && HasAddress(cluster[1..][q].thunks, a)
        && cluster[1..][q].name == SelfModule(cluster[1..], a);
      assert cluster[q + 1] == cluster[1..][q];
    }
  }

  /** A run of a cluster is one of the runs the clusters were made of. */
  lemma {:induction false} RunIn(cs: seq<seq<Module>>, c: nat, r: nat) returns (q: nat)
    requires c < |cs| && r < |cs[c]|
    ensures q < |Together(cs)| && Together(cs)[q] == cs[c][r]
    decreases |cs|
  {
    if c < |cs| - 1 {
      assert Front(cs)[c] == cs[c];
      q := RunIn(Front(cs), c, r);
    } else {
      q := |Together(Front(cs))| + r;
    }
  }

  lemma {:induction false} RunOut(cs: seq<seq<Module>>, q: nat) returns (c: nat, r: nat)
    requires q < |Together(cs)|
    ensures c < |cs| && r < |cs[c]| && Together(cs)[q] == cs[c][r]
    decreases |cs|
  {
    if q < |Together(Front(cs))| {
      c, r := RunOut(Front(cs), q);
      assert Front(cs)[c] == cs[c];
    } else {
      c, r := |cs| - 1, q - |Together(Front(cs))|;
    }
  }

  lemma {:induction false} OutFlat(ms: seq<Module>, o: Owned) returns (i: nat, k: nat)
    requires o in Flat(ms)
    ensures i < |ms| && k < |ms[i].thunks| && o == Owned(ms[i].name, ms[i].thunks[k])
    decreases |ms|
  {
    if o in Flat(Front(ms)) {
      i, k := OutFlat(Front(ms), o);
      assert Front(ms)[i] == ms[i];
    } else {
      i := |ms| - 1;
      var tagged := Tagged(Last(ms).name, Last(ms).thunks);
      k :| 0 <= k < |tagged| && tagged[k] == o;
    }
  }

  function ClustersOfAll(ms: seq<Module>, w: nat): seq<seq<Module>> { ClustersOf(RunsOf(InOrder(ms), w), w) }

  /** A cluster's slot is a recorded one. */
  lemma {:induction false} ClusterSlot(ms: seq<Module>, w: nat, c: nat, r: nat, k: nat)
    requires c < |ClustersOfAll(ms, w)| && r < |ClustersOfAll(ms, w)[c]|
    requires k < |ClustersOfAll(ms, w)[c][r].thunks|
    ensures var run := ClustersOfAll(ms, w)[c][r]; Owned(run.name, run.thunks[k]) in InOrder(ms)
  {
    hide Flat, InOrder, RunsOf, ClustersOf, Together;
    RunsKeepSlots(InOrder(ms), w);
    ClustersKeepRuns(RunsOf(InOrder(ms), w), w);
    var q := RunIn(ClustersOfAll(ms, w), c, r);
    InFlat(RunsOf(InOrder(ms), w), q, k);
  }

  /** Each recorded slot is in a run of some cluster. */
  lemma {:induction false} SlotCluster(ms: seq<Module>, w: nat, o: Owned) returns (c: nat, r: nat)
    requires o in InOrder(ms)
    ensures c < |ClustersOfAll(ms, w)| && SlotOfRun(ClustersOfAll(ms, w)[c], r, o)
  {
    hide Flat, InOrder, RunsOf, ClustersOf, Together;
    RunsKeepSlots(InOrder(ms), w);
    ClustersKeepRuns(RunsOf(InOrder(ms), w), w);
    var q, k := OutFlat(RunsOf(InOrder(ms), w), o);
    c, r := RunOut(ClustersOfAll(ms, w), q);
    assert ClustersOfAll(ms, w)[c][r].thunks[k] == o.thunk;
  }

  lemma {:induction false} OneAt(os: seq<Owned>, o: Owned, p: Owned)
    requires Rising(os) && o in os && p in os && o.thunk.iatAddress == p.thunk.iatAddress
    ensures o == p
  {
    var i: nat :| i < |os| && os[i] == o;
    var j: nat :| j < |os| && os[j] == p;
    assert !(i < j) && !(j < i);
  }

  /** An ordinal's candidate is the module it was recorded under. */
  lemma {:induction false} OrdinalOwn(ms: seq<Module>, w: nat, c: nat, r: nat, k: nat)
    requires c < |ClustersOfAll(ms, w)| && r < |ClustersOfAll(ms, w)[c]|
    requires k < |ClustersOfAll(ms, w)[c][r].thunks|
    ensures var cluster := ClustersOfAll(ms, w)[c];
      SelfModule(cluster, cluster[r].thunks[k].iatAddress) == cluster[r].name
  {
    hide InOrder, ClustersOfAll, SelfModule, Rising;
    var cluster := ClustersOfAll(ms, w)[c];
    var a := cluster[r].thunks[k].iatAddress;
    assert HasAddress(cluster[r].thunks, a);
    SelfIs(cluster, a);
    var q :| 0 <= q < |cluster| && HasAddress(cluster[q].thunks, a) && cluster[q].name == SelfModule(cluster, a);
    var l :| 0 <= l < |cluster[q].thunks| && cluster[q].thunks[l].iatAddress == a;
    ClusterSlot(ms, w, c, r, k);
    ClusterSlot(ms, w, c, q, l);
    OrderedSlots(ms);
    OneAt(InOrder(ms), Owned(cluster[r].name, cluster[r].thunks[k]), Owned(cluster[q].name, cluster[q].thunks[l]));
  }

  /** The slot was recorded under the module, or the module exports its name. */
  ghost predicate PairHolds(valid: Exports, ms: seq<Module>, name: bytes, t: Thunk)
  {
    || Owned(name, t) in Flat(ms)
    || ((exists o :: o in Flat(ms) && o.thunk == t) && t.name.Some? && valid(name, t.name.value))
  }

  lemma {:induction false} ClusterPair(valid: Exports, ms: seq<Module>, w: nat, c: nat, m: Module, t: Thunk)
    requires c < |ClustersOfAll(ms, w)| && Described(valid, ClustersOfAll(ms, w)[c]) == Some(m) && t in m.thunks
    ensures PairHolds(valid, ms, m.name, t)
  {
    hide InOrder, ClustersOfAll, SelfModule, Rising, Flat, Merged, Chosen;
    var cluster := ClustersOfAll(ms, w)[c];
    DescribedSlots(valid, cluster, m);
    var r := MergedSlot(cluster, t);
    var k: nat :| k < |cluster[r].thunks| && cluster[r].thunks[k] == t;
    ClusterSlot(ms, w, c, r, k);
    OrderedSlots(ms);
    assert Owned(cluster[r].name, t).thunk == t;
    if |cluster| != 1 {
      ChosenCovers(valid, cluster, cluster);
      assert CoversRun(valid, m.name, cluster, cluster[r]);
      assert Expressible(valid, m.name, cluster, t);
      OrdinalOwn(ms, w, c, r, k);
    }
  }

  /** No descriptor names a function under a module that neither was recorded for it nor exports it. */
  lemma {:induction false} NormalizedPairs(valid: Exports, ms: seq<Module>, w: nat, i: nat, t: Thunk)
    requires i < |Normalized(valid, ms, w)| && t in Normalized(valid, ms, w)[i].thunks
    ensures PairHolds(valid, ms, Normalized(valid, ms, w)[i].name, t)
  {
    hide DescribedAll, Described, PairHolds, InOrder, ClustersOf;
    DescribedStem(valid, ClustersOfAll(ms, w), i);
    var c :| 0 <= c < |ClustersOfAll(ms, w)|
      && Described(valid, ClustersOfAll(ms, w)[c]) == Some(Normalized(valid, ms, w)[i]);
    ClusterPair(valid, ms, w, c, Normalized(valid, ms, w)[i], t);
  }

  ghost predicate InDescriptor(ms: seq<Module>, t: Thunk)
  {
    exists i :: 0 <= i < |ms| && t in ms[i].thunks
  }

  /** Some module of the cluster can express all of it, or it has but one run. */
  ghost predicate Coverable(valid: Exports, cluster: seq<Module>)
  {
    |cluster| == 1 || exists r :: 0 <= r < |cluster| && CoversAll(valid, cluster[r].name, cluster)
  }

  lemma {:induction false} DescribedIff(valid: Exports, cluster: seq<Module>)
    ensures Described(valid, cluster).Some? <==> Coverable(valid, cluster)
  {
    hide CoversAll;
    ChosenTried(valid, cluster, cluster);
    if Chosen(valid, cluster, cluster).Some? {
      ChosenAmong(valid, cluster, cluster);
      ChosenCovers(valid, cluster, cluster);
    }
  }

  lemma {:induction false} ChosenAmong(valid: Exports, cluster: seq<Module>, runs: seq<Module>)
    requires Chosen(valid, cluster, runs).Some?
    ensures exists r :: 0 <= r < |runs| && runs[r].name == Chosen(valid, cluster, runs).value
    decreases |runs|
  {
    hide CoversAll;
    if Chosen(valid, cluster, Front(runs)).Some? {
      ChosenAmong(valid, cluster, Front(runs));
      var r :| 0 <= r < |Front(runs)| && Front(runs)[r].name == Chosen(valid, cluster, Front(runs)).value;
      assert runs[r] == Front(runs)[r];
    } else {
      assert runs[|runs| - 1].name == Chosen(valid, cluster, runs).value;
    }
  }

  lemma {:induction false} DescribedIn(valid: Exports, cs: seq<seq<Module>>, c: nat)
    requires c < |cs| && Described(valid, cs[c]).Some?
    ensures Described(valid, cs[c]).value in DescribedAll(valid, cs)
    decreases |cs|
  {
    hide Described;
    if c < |cs| - 1 {
      assert Front(cs)[c] == cs[c];
      DescribedIn(valid, Front(cs), c);
    }
  }

  lemma {:induction false} SlotBetween(cs: seq<seq<Module>>, c: nat, w: nat, t: Thunk)
    requires InClusters(cs, w) && c < |cs| && t in Merged(cs[c])
    ensures Low(cs[c]) <= t.iatAddress <= High(cs[c])
  {
    hide Chained, Merged, Contiguous;
    ClusterAt(cs, c, w);
    MergedContiguous(cs[c], w);
    var k: nat :| k < |Merged(cs[c])| && Merged(cs[c])[k] == t;
    RunBounds(Merged(cs[c]), w, k);
  }

  lemma {:induction false} RunBounds(ts: seq<Thunk>, w: nat, k: nat)
    requires Contiguous(ts, w) && k < |ts|
    ensures ts[0].iatAddress <= ts[k].iatAddress <= Last(ts).iatAddress
  {
    assert ts[|ts| - 1].iatAddress == ts[0].iatAddress + w * (|ts| - 1);
    MulMono(w, |ts| - 1, k);
  }

  /** The cluster can be described under its r-th run's module: it exports each name, and has each ordinal itself. */
  ghost predicate CanExpress(valid: Exports, cluster: seq<Module>, r: nat)
  {
    && r < |cluster|
    && forall q, k :: 0 <= q < |cluster| && 0 <= k < |cluster[q].thunks| ==>
         ThunkFits(valid, cluster[r].name, cluster[q].name, cluster[q].thunks[k])
  }

  predicate ThunkFits(valid: Exports, cand: bytes, own: bytes, t: Thunk)
  {
    match t.name
    case Some(name) => valid(cand, name)
    case None => t.ordinal.Some? && cand == own
  }

  lemma {:induction false} CoversIff(valid: Exports, ms: seq<Module>, w: nat, c: nat, r: nat)
    requires c < |ClustersOfAll(ms, w)| && r < |ClustersOfAll(ms, w)[c]|
    ensures var cluster := ClustersOfAll(ms, w)[c];
      CoversAll(valid, cluster[r].name, cluster) <==> CanExpress(valid, cluster, r)
  {
    hide ClustersOfAll, SelfModule;
    var cluster := ClustersOfAll(ms, w)[c];
    forall q, k | 0 <= q < |cluster| && 0 <= k < |cluster[q].thunks|
      ensures Expressible(valid, cluster[r].name, cluster, cluster[q].thunks[k])
         <==> ThunkFits(valid, cluster[r].name, cluster[q].name, cluster[q].thunks[k])
    {
      OrdinalOwn(ms, w, c, q, k);
    }
    if CoversAll(valid, cluster[r].name, cluster) {
      forall q, k | 0 <= q < |cluster| && 0 <= k < |cluster[q].thunks|
        ensures ThunkFits(valid, cluster[r].name, cluster[q].name, cluster[q].thunks[k])
      {
        assert CoversRun(valid, cluster[r].name, cluster, cluster[q]);
      }
    }
  }

  /**
   * A recorded slot gets a descriptor exactly if its run stands alone, or the cluster can be described under one of
   * its modules.
   */
  lemma {:induction false} SlotDescribedIff(valid: Exports, ms: seq<Module>, w: nat, rest: nat, o: Owned,
      c: nat, r: nat)
    requires (w == 4 || w == 8) && OneTable(ms, w, rest)
    requires c < |ClustersOfAll(ms, w)| && SlotOfRun(ClustersOfAll(ms, w)[c], r, o)
    ensures InDescriptor(Normalized(valid, ms, w), o.thunk)
       <==> |ClustersOfAll(ms, w)[c]| == 1 || exists q: nat :: CanExpress(valid, ClustersOfAll(ms, w)[c], q)
  {
    hide DescribedAll, Described, InOrder, ClustersOf, InClusters, OneTable, CoversAll, CanExpress, Merged, Stems,
      RunsOf;
    var cs, out := ClustersOfAll(ms, w), Normalized(valid, ms, w);
    NormalClusters(ms, w, rest);
    SlotMerged(cs[c], r, o.thunk);
    SlotBetween(cs, c, w, o.thunk);
    DescribedIff(valid, cs[c]);
    CoverableIff(valid, ms, w, c);
    if InDescriptor(out, o.thunk) {
      var i :| 0 <= i < |out| && o.thunk in out[i].thunks;
      DescribedStem(valid, cs, i);
      var d := StemSlots(valid, cs, out[i], w);
      SlotBetween(cs, d, w, o.thunk);
      ClustersMeet(cs, c, d, w, o.thunk.iatAddress);
    }
    if Described(valid, cs[c]).Some? {
      DescribedIn(valid, cs, c);
      DescribedSlots(valid, cs[c], Described(valid, cs[c]).value);
    }
  }

  lemma {:induction false} CoverableIff(valid: Exports, ms: seq<Module>, w: nat, c: nat)
    requires c < |ClustersOfAll(ms, w)|
    ensures var cluster := ClustersOfAll(ms, w)[c];
      Coverable(valid, cluster) <==> |cluster| == 1 || exists q: nat :: CanExpress(valid, cluster, q)
  {
    hide ClustersOfAll, CoversAll;
    var cluster := ClustersOfAll(ms, w)[c];
    forall r: nat | r < |cluster|
      ensures CoversAll(valid, cluster[r].name, cluster) <==> CanExpress(valid, cluster, r)
    {
      CoversIff(valid, ms, w, c, r);
    }
  }

  lemma {:induction false} ChosenFirst(valid: Exports, cluster: seq<Module>, runs: seq<Module>) returns (r: nat)
    requires Chosen(valid, cluster, runs).Some?
    ensures r < |runs| && Chosen(valid, cluster, runs) == Some(runs[r].name) && CoversAll(valid, runs[r].name, cluster)
    ensures forall q :: 0 <= q < r ==> !CoversAll(valid, runs[q].name, cluster)
    decreases |runs|
  {
    hide CoversAll;
    if Chosen(valid, cluster, Front(runs)).Some? {
      r := ChosenFirst(valid, cluster, Front(runs));
      assert runs[r] == Front(runs)[r];
      assert forall q :: 0 <= q < r ==> runs[q] == Front(runs)[q];
    } else {
      r := |runs| - 1;
      ChosenTried(valid, cluster, Front(runs));
      assert forall q :: 0 <= q < r ==> runs[q] == Front(runs)[q];
    }
  }

  /** A merged cluster goes under the first of its modules that it can be described under. */
  lemma {:induction false} MergedName(valid: Exports, ms: seq<Module>, w: nat, c: nat, m: Module) returns (r: nat)
    requires c < |ClustersOfAll(ms, w)| && |ClustersOfAll(ms, w)[c]| != 1
    requires Described(valid, ClustersOfAll(ms, w)[c]) == Some(m)
    ensures var cluster := ClustersOfAll(ms, w)[c];
      CanExpress(valid, cluster, r) && m.name == cluster[r].name && m.thunks == Merged(cluster)
      && forall q: nat :: q < r ==> !CanExpress(valid, cluster, q)
  {
    hide ClustersOfAll, CoversAll, CanExpress, Chosen, Merged;
    var cluster := ClustersOfAll(ms, w)[c];
    r := ChosenFirst(valid, cluster, cluster);
    CoversIff(valid, ms, w, c, r);
    forall q: nat | q < r ensures !CanExpress(valid, cluster, q) {
      CoversIff(valid, ms, w, c, q);
    }
  }

  /** Of the thunks recorded at one address the first one counts. */
  lemma {:induction false} FirstKept(os: seq<Owned>, o: Owned) returns (p: nat)
    requires o in Unique(os)
    ensures p < |os| && os[p] == o && forall q :: 0 <= q < p ==> os[q].thunk.iatAddress != o.thunk.iatAddress
    decreases |os|
  {
    hide Addresses;
    var x := Last(os);
    assert os == Front(os) + [x];
    UniqueSnoc(Front(os), x);
    if o in Unique(Front(os)) {
      p := FirstKept(Front(os), o);
      assert forall q :: 0 <= q <= p ==> os[q] == Front(os)[q];
    } else {
      p := |os| - 1;
      forall q | 0 <= q < p ensures os[q].thunk.iatAddress != o.thunk.iatAddress {
        AddressIn(Front(os), q);
      }
    }
  }

  lemma {:induction false} AddressIn(os: seq<Owned>, q: nat)
    requires q < |os|
    ensures os[q].thunk.iatAddress in Addresses(os)
  {
    assert os[q] in os;
  }

  lemma {:induction false} ClustersMeet(cs: seq<seq<Module>>, c: nat, d: nat, w: nat, a: nat)
    requires InClusters(cs, w) && c < |cs| && d < |cs| && w > 0
    requires Low(cs[c]) <= a <= High(cs[c]) && Low(cs[d]) <= a <= High(cs[d])
    ensures c == d
  {
    hide Chained, Low, High;
  }
}
