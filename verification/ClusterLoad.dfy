/** The load side of a rebalance pass: summing up the local load, the cluster mean over what the peers
    report, and what the asymmetric guard gives the cluster as a whole. */
module ClusterLoad {
  import opened Common
  import opened Dampening

  /** `_safeLoad`: what cannot be measured (`None`) or is negative counts as no load. */
  function SafeLoad(measured: Option<real>): (load: real)
    ensures load >= 0.0
    ensures measured.Some? && measured.value >= 0.0 ==> load == measured.value
    ensures measured.None? || measured.value < 0.0 ==> load == 0.0
  {
    if measured.Some? && measured.value >= 0.0 then measured.value else 0.0
  }

  function Total(measured: seq<Option<real>>): (total: real)
    ensures total >= 0.0
  {
    if measured == [] then 0.0 else Total(measured[..|measured| - 1]) + SafeLoad(measured[|measured| - 1])
  }

  lemma {:induction false} TotalAppend(a: seq<Option<real>>, b: seq<Option<real>>)
    ensures Total(a + b) == Total(a) + Total(b)
  {
    if b == [] {
      assert a + b == a;
    } else {
      assert (a + b)[..|a + b| - 1] == a + b[..|b| - 1];
      TotalAppend(a, b[..|b| - 1]);
    }
  }

  /** Each resource adds its own load to the sum, wherever it is listed: what was measured if that is not
      negative, else nothing.  So the sum does not depend on the order. */
  lemma TotalCountsEach(a: seq<Option<real>>, m: Option<real>, b: seq<Option<real>>)
    ensures Total([]) == 0.0
    ensures Total(a + [m] + b) == Total(a + b) + if m.Some? && m.value >= 0.0 then m.value else 0.0
  {
    TotalAppend(a + [m], b);
    TotalAppend(a, [m]);
    TotalAppend(a, b);
    assert [m][..0] == [];
  }

  method LocalLoad(measured: seq<Option<real>>) returns (load: real)
    ensures load == Total(measured)
  {
    load := 0.0;
    for i := 0 to |measured|
      invariant load == Total(measured[..i])
    {
      assert measured[..i + 1][..i] == measured[..i];
      load := load + SafeLoad(measured[i]);
    }
    assert measured[..|measured|] == measured;
  }

  // ---- The cluster mean -----------------------------------------------------------------------------

  ghost function Pick(loads: map<string, real>): (k: string)
    requires loads != map[]
    ensures k in loads
  {
    var k :| k in loads;
    k
  }

  ghost function Sum(loads: map<string, real>): real
    decreases |loads|
  {
    if loads == map[] then 0.0 else loads[Pick(loads)] + Sum(loads - {Pick(loads)})
  }

  /** The sum does not depend on the order it is taken in. */
  lemma {:induction false} SumRemoves(loads: map<string, real>, k: string)
    requires k in loads
    ensures Sum(loads) == loads[k] + Sum(loads - {k})
    decreases |loads|
  {
    var c := Pick(loads);
    if c != k {
      SumRemoves(loads - {c}, k);
      SumRemoves(loads - {k}, c);
      assert loads - {c} - {k} == loads - {k} - {c};
    }
  }

  ghost function Mean(loads: map<string, real>): real
    requires |loads| >= 1
  {
    Sum(loads) / |loads| as real
  }

  method SumOf(loads: map<string, real>) returns (sum: real)
    ensures sum == Sum(loads)
  {
    sum := 0.0;
    var todo := loads.Keys;
    assert (map k | k in todo :: loads[k]) == loads;
    while todo != {}
      invariant todo <= loads.Keys
      invariant sum + Sum(map k | k in todo :: loads[k]) == Sum(loads)
      decreases todo
    {
      var k :| k in todo;
      SumRemoves(map k | k in todo :: loads[k], k);
      assert (map k | k in todo :: loads[k]) - {k} == map k' | k' in todo - {k} :: loads[k'];
      sum := sum + loads[k];
      todo := todo - {k};
    }
  }

  /** The loads of all nodes, the local one as measured here. */
  function AllLoads(peers: map<string, real>, local: string, localLoad: real): map<string, real> {
    peers[local := localLoad]
  }

  /** The mean of the local load and those of the other nodes. */
  ghost function MeanWith(others: map<string, real>, localLoad: real): real {
    (localLoad + Sum(others)) / (|others| + 1) as real
  }

  lemma AllNodes(peers: map<string, real>, local: string, localLoad: real)
    ensures |AllLoads(peers, local, localLoad)| == |peers - {local}| + 1
    ensures peers - {local} == map[] <==> peers.Keys <= {local}
  {
    var all, others := AllLoads(peers, local, localLoad), peers - {local};
    assert all.Keys == others.Keys + {local} && local !in others.Keys;
    assert |all| == |all.Keys| && |others| == |others.Keys|;
    if others == map[] { assert peers.Keys - {local} == others.Keys; }
  }

  /** What the peers report for the local node does not count. */
  lemma OthersCount(peers: map<string, real>, local: string, localLoad: real)
    ensures Sum(AllLoads(peers, local, localLoad)) == localLoad + Sum(peers - {local})
  {
    var all := AllLoads(peers, local, localLoad);
    SumRemoves(all, local);
    assert all - {local} == peers - {local};
  }

  /** Step 5: the mean, unless no peer is known. */
  method ClusterMean(peers: map<string, real>, local: string, localLoad: real) returns (mean: Option<real>)
    ensures mean == if peers.Keys <= {local} then None else Some(MeanWith(peers - {local}, localLoad))
    ensures var all := AllLoads(peers, local, localLoad);
            mean == if |all| < 2 then None else Some(Mean(all))
  {
    AllNodes(peers, local, localLoad);
    OthersCount(peers, local, localLoad);
    var all := AllLoads(peers, local, localLoad);
    if |all| < 2 { return None; }
    var sum := SumOf(all);
    mean := Some(sum / |all| as real);
  }

  // ---- Not everyone sheds load ----------------------------------------------------------------------

  /** `n` times `q`. */
  ghost function Repeated(n: nat, q: real): real {
    if n == 0 then 0.0 else Repeated(n - 1, q) + q
  }

  lemma {:induction false} RepeatedIsProduct(n: nat, q: real)
    ensures Repeated(n, q) == n as real * q
  {
    if n > 0 {
      RepeatedIsProduct(n - 1, q);
      assert n as real * q == (n - 1) as real * q + q;
    }
  }

  lemma {:induction false} SumAbove(loads: map<string, real>, q: real)
    requires loads != map[] && forall k :: k in loads ==> loads[k] > q
    ensures Sum(loads) > Repeated(|loads|, q)
    decreases |loads|
  {
    var rest := loads - {Pick(loads)};
    assert |rest| + 1 == |loads|;
    if rest != map[] { SumAbove(rest, q); }
  }

  lemma MeanTimesSize(sum: real, n: nat)
    requires n >= 1
    ensures n as real * (sum / n as real) == sum
  {
  }

  lemma SomeoneAtMostMean(loads: map<string, real>) returns (k: string)
    requires |loads| >= 1
    ensures k in loads && loads[k] <= Mean(loads)
  {
    if forall j :: j in loads ==> loads[j] > Mean(loads) {
      MeanTimesSize(Sum(loads), |loads|);
      RepeatedIsProduct(|loads|, Mean(loads));
      SumAbove(loads, Mean(loads));
      assert false;
    }
    k :| k in loads && loads[k] <= Mean(loads);
  }

  /** Whatever the nodes have in their windows, when two or more judge by the same loads one of them
      does not start a rebalance. */
  ghost predicate SomeoneStays(threshold: real) {
    forall loads :: |loads| >= 2 ==>
      exists k :: k in loads && forall p95 :: Judge(loads[k], p95, Mean(loads), threshold) != Rebalance
  }

  lemma AtMostMeanStays(load: real, p95: Option<real>, mean: real, threshold: real)
    requires load <= mean && threshold >= 0.0
    ensures Judge(load, p95, mean, threshold) != Rebalance
  {
    if mean > 0.0 { QuotientAtMost(load, mean, 1.0); }
  }

  /** Two nodes with the same load. */
  ghost function Even(): map<string, real> { map["a" := 1.0, "b" := 1.0] }

  lemma EvenMean()
    ensures |Even()| == 2 && Mean(Even()) == 1.0
  {
    SumRemoves(Even(), "a");
    SumRemoves(Even() - {"a"}, "b");
    assert Even() - {"a"} - {"b"} == map[];
    assert Even().Keys == {"a", "b"};
  }

  /** The guard keeps part of the cluster as a target exactly for thresholds that are not negative. */
  lemma SomeoneStaysIff(threshold: real)
    ensures SomeoneStays(threshold) <==> threshold >= 0.0
  {
    if threshold >= 0.0 {
      forall loads: map<string, real> | |loads| >= 2
        ensures exists k :: k in loads && forall p95 :: Judge(loads[k], p95, Mean(loads), threshold) != Rebalance
      {
        var k := SomeoneAtMostMean(loads);
        forall p95 ensures Judge(loads[k], p95, Mean(loads), threshold) != Rebalance {
          AtMostMeanStays(loads[k], p95, Mean(loads), threshold);
        }
      }
    } else {
      EvenMean();
      assert Judge(1.0, None, 1.0, threshold) == Rebalance;
      assert forall k :: k in Even() ==> Judge(Even()[k], None, Mean(Even()), threshold) == Rebalance;
    }
  }
}
