/** How much a FEC receiver stores and how often it reconstructs, on every arrival sequence. */
module FecBounds {
  import opened Base
  import opened Arithmetic
  import opened ErasureCode
  import opened FecReception

  lemma {:induction false} RangeSize(s: set<nat>, lo: nat, hi: nat)
    requires lo <= hi && forall x :: x in s ==> lo <= x < hi
    ensures |s| <= hi - lo
    decreases hi
  {
    if hi > lo {
      RangeSize(s - {hi - 1}, lo, hi - 1);
      if hi - 1 in s {
        assert s == (s - {hi - 1}) + {hi - 1};
      } else {
        assert s - {hi - 1} == s;
      }
    } else {
      assert s == {};
    }
  }

  /** The newest group is the largest id that ever arrived. */
  lemma {:induction false} NewestIsMaximum(log: seq<Arrival>)
    ensures forall j :: 0 <= j < |log| ==> log[j].g <= Newest(log)
    ensures log != [] ==> exists j :: 0 <= j < |log| && log[j].g == Newest(log)
  {
    if log != [] {
      var init := log[..|log| - 1];
      NewestIsMaximum(init);
      assert forall j :: 0 <= j < |init| ==> init[j] == log[j];
      assert init == [] ==> Newest(init) == 0;
      if Newest(log) != log[|log| - 1].g {
        var j :| 0 <= j < |init| && init[j].g == Newest(init);
        assert log[j].g == Newest(log);
      }
    }
  }

  /** Every stored set is in the window and partly filled, and there are never more than the window allows. */
  lemma StateBounded(shape: Shape, log: seq<Arrival>, sets: map<u32, Slots>)
    requires shape.k > 0 && AllFit(shape, log) && Mirrors(shape, log, sets)
    ensures forall g :: g in sets ==>
      g <= Newest(log) <= g + Window(shape) && 1 <= Count(sets[g]) <= shape.k - 1
    ensures |sets| <= Window(shape) + 1
  {
    forall g | g in sets
      ensures g <= Newest(log) <= g + Window(shape) && 1 <= Count(sets[g]) <= shape.k - 1
    {
      assert StoredRight(shape, log, sets, g);
      HeldBounded(shape, log, g);
    }
    var lo := Max(0, Newest(log) - Window(shape));
    var keys: set<nat> := set g | g in sets.Keys;
    assert keys == sets.Keys;
    RangeSize(keys, lo, Newest(log) + 1);
  }

  predicate Full(shape: Shape, slots: Slots, a: Arrival)
    requires |slots| == shape.n() && Fits(shape, a)
  {
    slots[a.i].None? && Count(slots[a.i := Some(a.body)]) >= shape.k
  }

  /** Arrival `a` after `log` is the one that completes its group. */
  predicate Completes(shape: Shape, log: seq<Arrival>, a: Arrival)
    requires AllFit(shape, log) && Fits(shape, a)
  {
    Full(shape, Held(shape, log, a.g), a)
  }

  function Completions(shape: Shape, log: seq<Arrival>, g: nat): nat
    requires AllFit(shape, log)
  {
    if log == [] then 0 else
    var init, a := log[..|log| - 1], log[|log| - 1];
    Completions(shape, init, g) + if a.g == g && Completes(shape, init, a) then 1 else 0
  }

  /** The arrival completes its group with a data shard missing, so that the code is asked to rebuild it. */
  predicate Rebuilds(shape: Shape, log: seq<Arrival>, a: Arrival)
    requires AllFit(shape, log) && Fits(shape, a)
  {
    Completes(shape, log, a) && Missing(Held(shape, log, a.g)[a.i := Some(a.body)], shape.k) != []
  }

  function Reconstructions(shape: Shape, log: seq<Arrival>, g: nat): nat
    requires AllFit(shape, log)
  {
    if log == [] then 0 else
    var init, a := log[..|log| - 1], log[|log| - 1];
    Reconstructions(shape, init, g) + if a.g == g && Rebuilds(shape, init, a) then 1 else 0
  }

  lemma {:induction false} FewerReconstructions(shape: Shape, log: seq<Arrival>, g: nat)
    requires AllFit(shape, log)
    ensures Reconstructions(shape, log, g) <= Completions(shape, log, g)
  {
    if log != [] {
      FewerReconstructions(shape, log[..|log| - 1], g);
    }
  }

  function Delivered(log: seq<Arrival>, g: nat): nat {
    if log == [] then 0 else Delivered(log[..|log| - 1], g) + if log[|log| - 1].g == g then 1 else 0
  }

  lemma AdmitPays(shape: Shape, slots: Slots, a: Arrival)
    requires |slots| == shape.n() && Fits(shape, a) && Count(slots) < shape.k
    ensures Count(Admit(shape, slots, a)) + (if Full(shape, slots, a) then shape.k else 0) <= Count(slots) + 1
  {
    CountZero(NoShards(shape.n()));
    if slots[a.i].None? {
      CountStep(slots, a.i, a.body);
    }
  }

  /** Each completion uses up `k` deliveries of its own, and so do the shards held now. */
  lemma {:induction false} CompletionsArePaidFor(shape: Shape, log: seq<Arrival>, g: nat)
    requires shape.k > 0 && AllFit(shape, log)
    ensures Times(Completions(shape, log, g), shape.k) + Count(Held(shape, log, g)) <= Delivered(log, g)
  {
    CountZero(NoShards(shape.n()));
    if log != [] {
      var init, a := log[..|log| - 1], log[|log| - 1];
      CompletionsArePaidFor(shape, init, g);
      HeldBounded(shape, init, g);
      if a.g == g {
        AdmitPays(shape, Held(shape, init, g), a);
      }
    }
  }

  ghost predicate NoDuplicates(log: seq<Arrival>) {
    forall s, t :: 0 <= s < t < |log| ==> (log[s].g, log[s].i) != (log[t].g, log[t].i)
  }

  function Arrived(log: seq<Arrival>, g: nat): set<nat> {
    set j | 0 <= j < |log| && log[j].g == g :: log[j].i
  }

  lemma ArrivedStep(log: seq<Arrival>, a: Arrival, g: nat)
    ensures Arrived(log + [a], g) == Arrived(log, g) + if a.g == g then {a.i} else {}
  {
    var after := log + [a];
    assert forall j :: 0 <= j < |log| ==> after[j] == log[j];
    assert after[|log|] == a;
    forall x | x in Arrived(log, g)
      ensures x in Arrived(after, g)
    {
      var j :| 0 <= j < |log| && log[j].g == g && log[j].i == x;
      assert after[j].g == g && after[j].i == x;
    }
  }

  lemma {:induction false} DistinctDeliveries(log: seq<Arrival>, g: nat)
    requires NoDuplicates(log)
    ensures Delivered(log, g) == |Arrived(log, g)|
  {
    if log != [] {
      var init, a := log[..|log| - 1], log[|log| - 1];
      DistinctDeliveries(init, g);
      ArrivedStep(init, a, g);
      assert init + [a] == log;
      assert forall j :: 0 <= j < |init| ==> init[j] == log[j];
      assert a.g == g ==> a.i !in Arrived(init, g);
    }
  }

  /** Without duplicate deliveries and with fewer parity than data shards, a group is completed at most once. */
  lemma CompletedAtMostOnce(shape: Shape, log: seq<Arrival>, g: nat)
    requires 0 < shape.p < shape.k && AllFit(shape, log) && NoDuplicates(log)
    ensures Completions(shape, log, g) <= 1
  {
    CompletionsArePaidFor(shape, log, g);
    DistinctDeliveries(log, g);
    RangeSize(Arrived(log, g), 0, shape.n());
    SmallTimes(shape.k);
    TimesMonotone(Min(2, Completions(shape, log, g)), Completions(shape, log, g), shape.k);
  }

  ghost predicate Progress(shape: Shape, log: seq<Arrival>, j: nat)
    requires AllFit(shape, log)
  {
    var slots := Held(shape, log, 0);
    && Newest(log) == 0
    && (forall i :: j <= i < shape.n() ==> slots[i].None?)
    && Count(slots) == (if j < shape.k then j else if j < shape.k + shape.k then j - shape.k else 0)
    && Completions(shape, log, 0) == (if j < shape.k then 0 else if j < shape.k + shape.k then 1 else 2)
  }

  lemma ProgressStep(shape: Shape, log: seq<Arrival>, j: nat)
    requires 0 < shape.k <= shape.p && j < shape.k + shape.k
    requires AllFit(shape, log) && Progress(shape, log, j)
    ensures AllFit(shape, log + [Arrival(0, j, [])]) && Progress(shape, log + [Arrival(0, j, [])], j + 1)
  {
    var a := Arrival(0, j, []);
    CountZero(NoShards(shape.n()));
    CountStep(Held(shape, log, 0), j, []);
    HeldStep(shape, log, a, 0);
    assert (log + [a])[..|log|] == log;
  }

  lemma ProgressStart(shape: Shape)
    requires 0 < shape.k
    ensures Progress(shape, [], 0)
  {
    CountZero(NoShards(shape.n()));
  }

  /** The first `j` packets of group 0, each once, in order. */
  lemma {:induction false} FirstPackets(shape: Shape, j: nat) returns (log: seq<Arrival>)
    requires 0 < shape.k <= shape.p && j <= shape.k + shape.k
    ensures |log| == j && forall i :: 0 <= i < j ==> log[i] == Arrival(0, i, [])
    ensures AllFit(shape, log) && Progress(shape, log, j)
  {
    if j == 0 {
      log := [];
      ProgressStart(shape);
    } else {
      var init := FirstPackets(shape, j - 1);
      ProgressStep(shape, init, j - 1);
      log := init + [Arrival(0, j - 1, [])];
    }
  }

  /** For completions the bound is exact: with as many parity as data shards, some duplicate-free delivery has two. */
  lemma CompletedTwice(shape: Shape) returns (log: seq<Arrival>)
    requires 0 < shape.k <= shape.p
    ensures AllFit(shape, log) && NoDuplicates(log) && Completions(shape, log, 0) == 2
  {
    log := FirstPackets(shape, shape.k + shape.k);
  }
}
