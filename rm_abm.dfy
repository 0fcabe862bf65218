/** The phage-bacteria agent-based model with restriction-modification
    systems (rm_abm/rm_abm.py): phage drift in a circular world of width
    one, infect the bacteria they meet, and are either degraded by the
    bacterium's restriction system or burst out as offspring.

    Every random draw of the simulation is an input: an `Oracle` answers
    each draw, named by where it happens (which step, which agent), so the
    whole run is a deterministic function of the oracle and can be
    specified. */
module RmAbm {
  import opened Common
  import Evolvable
  import opened IntervalTree
  import Encounter

  /** Width of the interval a bacterium occupies in the world. */
  const AgentWidth: real := 0.0001

  /** A methylation mark, or none (offspring that did not inherit one). */
  datatype Methylation = Methylated(mark: int) | Unmethylated

  datatype Breed = PhageBreed | BacteriaBreed

  datatype ModelError = EncounterWidthOutOfRange | ZeroAgentId

  /** The model's parameters, in the order of the constructor's arguments
      (`verbose` only switches printing and is not kept). */
  datatype Params = Params(
    initialPhage: int,
    initialFractionPM1: real,
    initialFractionPG1: real,
    initialBacteria: int,
    fractionBM1: real,
    phageInactivationTime: int,
    phageBurstSize: int,
    phageOffDiagonal: real,
    phageMutationStep: real,
    phageMutationFreq: real,
    reDegradeForeign0: real,
    reDegradeForeign1: real,
    bacteriaPerStep: int,
    encounterWidth: real,
    latency: real,
    epiInheritance: real)

  const DefaultParams: Params :=
    Params(10, 1.0, 1.0, 100, 0.5, 1, 3, 0.01, 0.0, 0.0, 0.001, 0.001, 10, 0.01, 0.5, 1.0)

  // ---------------------------------------------------------------------
  // Random draws

  /** The place of each uniform draw in [0, 1). Draws made for an agent
      that is being created are keyed by the id it receives. */
  datatype Draw =
    | FounderMethylation(id: int)
    | FounderGenotype(id: int)
    | RecruitGenotype(id: int)
    | Position(step: nat, bacterium: int)
    | Strike(step: nat, phage: int)
    | Trial(step: nat, phage: int, bacterium: int)
    | Degrade(step: nat, bacterium: int)
    | Lysis(step: nat, bacterium: int)
    | Inherit(offspring: int)
    | Mutation(offspring: int, component: nat)

  /** The source of randomness: uniform draws, fair coins for random
      methylation, mutation signs, the scheduler's activation order of a
      breed's ids, and the shuffle of the bacteria a phage meets. */
  datatype Oracle = Oracle(
    uniform: Draw -> real,
    coin: int -> int,
    sign: (int, nat) -> Evolvable.Sign,
    activation: (nat, Breed, set<int>) -> seq<int>,
    shuffle: (nat, int, set<int>) -> seq<int>)

  /** What the random sources guarantee. */
  ghost predicate Admissible(o: Oracle)
  {
    && (forall d :: 0.0 <= o.uniform(d) < 1.0)
    && (forall id :: o.coin(id) == 0 || o.coin(id) == 1)
    && (forall t, breed, ids :: IsEnumeration(o.activation(t, breed, ids), ids))
    && (forall t, id, met :: IsEnumeration(o.shuffle(t, id, met), met))
  }

  /** `bernoulli(p)`: one trial that succeeds with probability p, driven
      by a uniform draw. */
  predicate Bernoulli(p: real, u: real)
    ensures 0.0 <= u < 1.0 && p <= 0.0 ==> !Bernoulli(p, u)
    ensures 0.0 <= u < 1.0 && p >= 1.0 ==> Bernoulli(p, u)
  {
    u < p
  }

  /** A weighted choice between 0 and 1, 1 with weight f: the first value below the
      cumulative weight 1 - f, the second from there on. */
  function Choice01(f: real, u: real): (r: int)
    ensures r == 0 || r == 1
    ensures 0.0 <= u < 1.0 && f <= 0.0 ==> r == 0
    ensures 0.0 <= u < 1.0 && f >= 1.0 ==> r == 1
  {
    if u < 1.0 - f then 0 else 1
  }

  // ---------------------------------------------------------------------
  // Agents

  class Phage {
    const id: int
    const genotype: int
    const methylation: Methylation
    /** Steps left outside a host. */
    var inactivation: int
    const affinity: Evolvable.Vector
    const parent: int
    /** Set once the phage has infected (or tried to infect an occupied cell). */
    var dead: bool
    /** Genotype of the bacterium the phage burst from, if any. */
    const lastInfected: Option<int>

    constructor (id: int, genotype: int, methylation: Methylation, inactivation: int,
                 affinity: Evolvable.Vector, parent: int, lastInfected: Option<int>)
      requires id != 0
      ensures this.id == id && this.genotype == genotype && this.methylation == methylation
      ensures this.inactivation == inactivation && this.affinity == affinity
      ensures this.parent == parent && this.lastInfected == lastInfected && !dead
    {
      this.id := id;
      this.genotype := genotype;
      this.methylation := methylation;
      this.inactivation := inactivation;
      this.affinity := affinity;
      this.parent := parent;
      this.lastInfected := lastInfected;
      dead := false;
    }
  }

  /** The degradation rule: a phage is destroyed only before the infection
      is established, only when its methylation differs from the host's,
      and then only when the restriction draw fires. */
  predicate DestroysPhage(host: Methylation, established: bool, phage: Methylation,
                          reDegradeForeign: real, u: real)
  {
    !established && host != phage && Bernoulli(reDegradeForeign, u)
  }

  /** What a bacterium may hold: no phage, or one whose affinity can be
      copied into offspring fit for infection. */
  type Occupant = p: Phage? | p == null || GoodAffinity(p.affinity)

  class Bacterium {
    const id: int
    const genotype: int
    const methylation: Methylation
    /** The phage inside, if any. */
    var phage: Occupant
    const reDegradeForeign: real
    var established: bool

    constructor (id: int, genotype: int, methylation: Methylation, reDegradeForeign: real)
      requires id != 0
      ensures this.id == id && this.genotype == genotype && this.methylation == methylation
      ensures this.reDegradeForeign == reDegradeForeign
      ensures phage == null && !established
    {
      this.id := id;
      this.genotype := genotype;
      this.methylation := methylation;
      this.reDegradeForeign := reDegradeForeign;
      phage := null;
      established := false;
    }

    /** `maybe_degrade`, with `u` the restriction draw. An infection that
        survives one check against a foreign phage becomes established, and
        an established infection is never degraded. */
    method MaybeDegrade(u: real) returns (degraded: bool)
      requires phage != null
      modifies this`established
      ensures degraded <==> DestroysPhage(methylation, old(established), phage.methylation, reDegradeForeign, u)
      ensures established <==> old(established) || (methylation != phage.methylation && !degraded)
      ensures old(established) ==> !degraded && established
      ensures methylation == phage.methylation ==> !degraded && established == old(established)
    {
      if !established {
        if methylation == phage.methylation {
          degraded := false;
        } else {
          if Bernoulli(reDegradeForeign, u) {
            degraded := true;
          } else {
            established := true;
            degraded := false;
          }
        }
      } else {
        degraded := false;
      }
    }
  }

  /** The zero-id check (a ValueError) of both agent
      constructors. */
  method NewPhage(id: int, genotype: int, methylation: Methylation, inactivation: int,
                  affinity: Evolvable.Vector, parent: int, lastInfected: Option<int>)
    returns (r: Result<Phage, ModelError>)
    ensures r.Failure? <==> id == 0
    ensures r.Failure? ==> r.error == ZeroAgentId
    ensures r.Success? ==> r.value.id == id && r.value.genotype == genotype && !r.value.dead
  {
    if id == 0 {
      return Failure(ZeroAgentId);
    }
    var p := new Phage(id, genotype, methylation, inactivation, affinity, parent, lastInfected);
    return Success(p);
  }

  method NewBacterium(id: int, genotype: int, methylation: Methylation, reDegradeForeign: real)
    returns (r: Result<Bacterium, ModelError>)
    ensures r.Failure? <==> id == 0
    ensures r.Failure? ==> r.error == ZeroAgentId
    ensures r.Success? ==> r.value.id == id && r.value.genotype == genotype && r.value.phage == null
  {
    if id == 0 {
      return Failure(ZeroAgentId);
    }
    var b := new Bacterium(id, genotype, methylation, reDegradeForeign);
    return Success(b);
  }

  // ---------------------------------------------------------------------
  // Filters and counts used by the model reporters

  /** The attributes of an agent that the reporters' filters look at. */
  datatype Agent = Agent(breed: Breed, genotype: int, methylation: Methylation)

  function PhageView(p: Phage): Agent
  {
    Agent(PhageBreed, p.genotype, p.methylation)
  }

  function BacteriumView(b: Bacterium): Agent
  {
    Agent(BacteriaBreed, b.genotype, b.methylation)
  }

  /** `by_genotype(g)`. */
  function ByGenotype(g: int): (f: Agent -> bool)
    ensures forall a :: f(a) <==> a.genotype == g
  {
    (a: Agent) => a.genotype == g
  }

  /** `by_methylation(m)`. */
  function ByMethylation(m: Methylation): (f: Agent -> bool)
    ensures forall a :: f(a) <==> a.methylation == m
  {
    (a: Agent) => a.methylation == m
  }

  /** `index_of_first`: the position of the first element satisfying
      `pred`, or none. */
  function IndexOfFirst<T>(s: seq<T>, pred: T -> bool): (r: Option<nat>)
    ensures r.Some? ==> r.value < |s| && pred(s[r.value])
    ensures r.Some? ==> forall j :: 0 <= j < r.value ==> !pred(s[j])
    ensures r.None? <==> forall j :: 0 <= j < |s| ==> !pred(s[j])
  {
    if |s| == 0 then None
    else if pred(s[0]) then Some(0)
    else match IndexOfFirst(s[1..], pred)
      case None => None
      case Some(i) => Some(i + 1)
  }

  /** One row of the per-step model report. */
  datatype Census = Census(phage: nat, bacteria: nat, bacteriaMeth0: nat, phageMeth0: nat)

  /** An infecting phage's affinity: a plain vector with one entry per
      bacterial genotype, each a probability. */
  ghost predicate GoodAffinity(e: Evolvable.Vector)
  {
    e.Plain? && |e.vector| == 2 && Evolvable.InUnit(e.vector)
  }

  /** Row `g` of the founders' symmetric affinity matrix: the diagonal
      entry 1 - offDiagonal sits at the phage's own genotype. */
  function AffinityRow(offDiagonal: real, g: int): (r: seq<real>)
    ensures |r| == 2 && r[0] + r[1] == 1.0
    ensures r[if g == 0 then 0 else 1] == 1.0 - offDiagonal
  {
    if g == 0 then [1.0 - offDiagonal, offDiagonal] else [offDiagonal, 1.0 - offDiagonal]
  }

  /** An offspring's methylation under the three inheritance modes: -1
      copies the parent phage's, -2 takes a fair coin, and any other value
      is the probability of taking the host's (else none). */
  function InheritedMethylation(epi: real, host: Methylation, parent: Methylation,
                                inherits: bool, coin: int): (m: Methylation)
    ensures epi == -1.0 ==> m == parent
    ensures epi == -2.0 ==> m == Methylated(coin)
    ensures epi != -1.0 && epi != -2.0 ==> (m == host <== inherits) && (m == Unmethylated <== !inherits)
  {
    if epi != -1.0 && epi != -2.0 then
      if inherits then host else Unmethylated
    else if epi == -1.0 then
      parent
    else
      Methylated(coin)
  }

  /** The mutation draws for an offspring's copy of a vector. */
  function Fires(e: Evolvable.Vector, o: Oracle, offspring: int): (r: seq<bool>)
    ensures |r| == |e.vector|
  {
    seq(|e.vector|, i requires 0 <= i < |e.vector| =>
      Bernoulli(e.mutationFrequency, o.uniform(Mutation(offspring, i))))
  }

  function Signs(e: Evolvable.Vector, o: Oracle, offspring: int): (r: seq<Evolvable.Sign>)
    ensures |r| == |e.vector|
  {
    seq(|e.vector|, i requires 0 <= i < |e.vector| => o.sign(offspring, i))
  }

  /** `(m - {k})` has one element fewer. */
  lemma MapRemoveCard<K, V>(m: map<K, V>, k: K)
    requires k in m
    ensures |m - {k}| == |m| - 1
  {
    assert (m - {k}).Keys == m.Keys - {k};
  }


  // ---------------------------------------------------------------------
  // Populations as maps

  /** `after` keeps every entry of `before` and gains exactly one entry
      under each id in lo+1 .. hi. */
  ghost predicate ExtendsWithRange<V>(before: map<int, V>, after: map<int, V>, lo: int, hi: int)
  {
    && (forall id :: id in before ==> id in after && after[id] == before[id])
    && (forall id :: id in after ==> id in before || lo < id <= hi)
    && (forall id :: lo < id <= hi ==> id in after)
  }

  /** Ids -10, -20, ..., -10 * (n - 1), those of the spike-in phage. */
  ghost predicate IsSpikeInId(id: int, n: int)
  {
    id < 0 && id % 10 == 0 && -id < 10 * n
  }

  /** `after` keeps every entry of `before` and gains exactly the
      spike-in ids below n. */
  ghost predicate ExtendsWithSpikeIns<V>(before: map<int, V>, after: map<int, V>, n: int)
  {
    && (forall id :: id in before ==> id in after && after[id] == before[id])
    && (forall id :: id in after ==> id in before || IsSpikeInId(id, n))
    && (forall id :: IsSpikeInId(id, n) ==> id in after)
  }

  /** The spike-in ids below n + 1 are those below n and -10 * n. */
  lemma SpikeInIdStep(id: int, n: int)
    requires n >= 1
    ensures IsSpikeInId(id, n + 1) <==> IsSpikeInId(id, n) || id == -10 * n
  {
    if IsSpikeInId(id, n + 1) && !IsSpikeInId(id, n) {
      var k := -id / 10;
      assert -id == 10 * k;
      assert n <= k < n + 1;
    }
  }

  lemma ExtendSpikeInsByOne<V>(before: map<int, V>, m: map<int, V>, n: int, v: V)
    requires n >= 1 && ExtendsWithSpikeIns(before, m, n)
    requires forall id :: id in before ==> id > 0
    ensures -10 * n !in m && |m[-10 * n := v]| == |m| + 1
    ensures ExtendsWithSpikeIns(before, m[-10 * n := v], n + 1)
  {
    assert !IsSpikeInId(-10 * n, n);
    var m' := m[-10 * n := v];
    forall id | id in m'
      ensures id in before || IsSpikeInId(id, n + 1)
    {
      SpikeInIdStep(id, n);
    }
    forall id | IsSpikeInId(id, n + 1)
      ensures id in m'
    {
      SpikeInIdStep(id, n);
    }
  }

  /** The phage population: entries keyed by their own nonzero id, ids
      handed out so far, and affinities fit for infection. */
  ghost predicate PhagesWellFormed(ps: map<int, Phage>, top: int)
  {
    && (forall id :: id in ps ==> ps[id].id == id && id != 0 && id <= top)
    && (forall id {:trigger GoodAffinity(ps[id].affinity)} :: id in ps ==> GoodAffinity(ps[id].affinity))
  }

  /** The bacterial population: entries keyed by their own positive id,
      ids handed out so far, genotype 0 or 1. */
  ghost predicate BacteriaWellFormed(bs: map<int, Bacterium>, top: int)
  {
    (forall id :: id in bs ==> bs[id].id == id && 0 < id <= top) && Binary(bs)
  }

  /** Every bacterium has genotype 0 or 1, an index into a phage's
      affinity vector. */
  ghost predicate Binary(bs: map<int, Bacterium>)
  {
    forall id :: id in bs ==> bs[id].genotype == 0 || bs[id].genotype == 1
  }

  /** The id counter and the two populations agree: every agent is filed
      under its own id, no id is shared across the breeds, and every agent
      belongs to the pool of agents created so far. */
  ghost predicate Consistent(top: int, ps: map<int, Phage>, bs: map<int, Bacterium>,
                             phagePool: set<Phage>, bacteriumPool: set<Bacterium>)
  {
    && 0 <= top
    && PhagesWellFormed(ps, top)
    && BacteriaWellFormed(bs, top)
    && ps.Keys !! bs.Keys
    && (forall id :: id in ps ==> ps[id] in phagePool)
    && (forall id :: id in bs ==> bs[id] in bacteriumPool)
  }

  lemma ConsistentAddPhage(top: int, ps: map<int, Phage>, bs: map<int, Bacterium>,
                           phagePool: set<Phage>, bacteriumPool: set<Bacterium>, p: Phage)
    requires Consistent(top, ps, bs, phagePool, bacteriumPool)
    requires p.id == top + 1 && GoodAffinity(p.affinity)
    ensures Consistent(top + 1, ps[p.id := p], bs, phagePool + {p}, bacteriumPool)
    ensures p.id !in ps
  {
  }

  lemma ConsistentAddBacterium(top: int, ps: map<int, Phage>, bs: map<int, Bacterium>,
                               phagePool: set<Phage>, bacteriumPool: set<Bacterium>, b: Bacterium)
    requires Consistent(top, ps, bs, phagePool, bacteriumPool)
    requires b.id == top + 1 && (b.genotype == 0 || b.genotype == 1)
    ensures Consistent(top + 1, ps, bs[b.id := b], phagePool, bacteriumPool + {b})
    ensures b.id !in bs
  {
  }

  lemma ConsistentAddSpikeIn(top: int, ps: map<int, Phage>, bs: map<int, Bacterium>,
                             phagePool: set<Phage>, bacteriumPool: set<Bacterium>, p: Phage)
    requires Consistent(top, ps, bs, phagePool, bacteriumPool)
    requires p.id < 0 && GoodAffinity(p.affinity)
    ensures Consistent(top, ps[p.id := p], bs, phagePool + {p}, bacteriumPool)
  {
  }

  /** A phage that has not acted yet: full countdown, not spent. */
  ghost predicate Pristine(p: Phage, inactivationTime: int)
    reads p
  {
    p.inactivation == inactivationTime && !p.dead
  }

  /** A bacterium no phage has entered yet. */
  ghost predicate Uninfected(b: Bacterium)
    reads b
  {
    b.phage == null && !b.established
  }

  /** The model: the live phage and bacteria by id (the scheduler's
      per-breed dictionaries), the interval tree of the current step, the
      id counter, the step counter and the per-step reports. Bacteria sit
      in the tree under their ids. The two pools hold every agent the model
      has created; they only frame what a step may change. */
  class Model {
    const params: Params
    var currentId: int
    var time: nat
    var phages: map<int, Phage>
    var bacteria: map<int, Bacterium>
    var tree: set<Interval<int>>
    var history: seq<Census>
    ghost var phagePool: set<Phage>
    ghost var bacteriumPool: set<Bacterium>

    ghost predicate Valid()
      reads this`currentId, this`phages, this`bacteria, this`phagePool, this`bacteriumPool
    {
      0.0 <= params.encounterWidth <= 1.0 && Consistent(currentId, phages, bacteria, phagePool, bacteriumPool)
    }

    /** Every interval of the tree belongs to a live bacterium. */
    ghost predicate TreeOver()
      reads this`tree, this`bacteria
    {
      forall iv :: iv in tree ==> iv.data in bacteria
    }

    // ----- counts and reports

    /** `get_breed_count`. */
    function BreedCount(breed: Breed): (n: nat)
      reads this
      ensures n == if breed == PhageBreed then |phages| else |bacteria|
    {
      if breed == PhageBreed then |phages.Keys| else |bacteria.Keys|
    }

    /** The ids of the live agents of a breed that satisfy `f`. */
    function Matching(breed: Breed, f: Agent -> bool): (ids: set<int>)
      reads this
      ensures breed == PhageBreed ==> forall id :: id in ids <==> id in phages && f(PhageView(phages[id]))
      ensures breed == BacteriaBreed ==> forall id :: id in ids <==> id in bacteria && f(BacteriumView(bacteria[id]))
    {
      if breed == PhageBreed then set id | id in phages && f(PhageView(phages[id]))
      else set id | id in bacteria && f(BacteriumView(bacteria[id]))
    }

    /** `get_breed_filtered_count(breed, f)(model)`. */
    function FilteredCount(breed: Breed, f: Agent -> bool): (n: nat)
      reads this
      ensures n == |Matching(breed, f)| && n <= BreedCount(breed)
    {
      var ids := Matching(breed, f);
      assert breed == PhageBreed ==> |ids| <= |phages.Keys| by {
        if breed == PhageBreed { SubsetCard(ids, phages.Keys); }
      }
      assert breed == BacteriaBreed ==> |ids| <= |bacteria.Keys| by {
        if breed == BacteriaBreed { SubsetCard(ids, bacteria.Keys); }
      }
      |ids|
    }

    /** A filter and its negation split a breed's count. */
    lemma FilteredCountSplit(breed: Breed, f: Agent -> bool)
      ensures FilteredCount(breed, f) + FilteredCount(breed, (a: Agent) => !f(a)) == BreedCount(breed)
    {
      var yes := Matching(breed, f);
      var no := Matching(breed, (a: Agent) => !f(a));
      var all := if breed == PhageBreed then phages.Keys else bacteria.Keys;
      assert yes + no == all;
      assert yes !! no;
    }

    /** The ids of the live bacteria carrying methylation `m`. */
    ghost function BacteriaOfMethylation(m: Methylation): set<int>
      reads this`bacteria
    {
      set id | id in bacteria && bacteria[id].methylation == m
    }

    /** The ids of the live phage carrying methylation `m`. */
    ghost function PhageOfMethylation(m: Methylation): set<int>
      reads this`phages
    {
      set id | id in phages && phages[id].methylation == m
    }

    /** The model reporters: live phage, live bacteria, and how many of
        each carry methylation 0. */
    function CensusNow(): (c: Census)
      reads this
      ensures c.phage == |phages| && c.bacteria == |bacteria|
      ensures c.bacteriaMeth0 <= c.bacteria && c.phageMeth0 <= c.phage
    {
      Census(BreedCount(PhageBreed), BreedCount(BacteriaBreed),
             FilteredCount(BacteriaBreed, ByMethylation(Methylated(0))),
             FilteredCount(PhageBreed, ByMethylation(Methylated(0))))
    }

    /** The methylation-0 columns of the report count exactly the live
        agents of methylation 0. */
    lemma CensusCounts()
      ensures CensusNow().bacteriaMeth0 == |BacteriaOfMethylation(Methylated(0))|
      ensures CensusNow().phageMeth0 == |PhageOfMethylation(Methylated(0))|
    {
      assert Matching(BacteriaBreed, ByMethylation(Methylated(0))) == BacteriaOfMethylation(Methylated(0));
      assert Matching(PhageBreed, ByMethylation(Methylated(0))) == PhageOfMethylation(Methylated(0));
    }

    // ----- what each kind of creation produces

    /** The constant attributes of a founder phage. */
    ghost predicate IsFounder(p: Phage, o: Oracle)
    {
      && p.genotype == Choice01(params.initialFractionPG1, o.uniform(FounderGenotype(p.id)))
      && p.methylation == Methylated(Choice01(params.initialFractionPM1, o.uniform(FounderMethylation(p.id))))
      && p.affinity == Evolvable.NewVector(AffinityRow(params.phageOffDiagonal, p.genotype),
                                           params.phageMutationStep, params.phageMutationFreq)
      && p.parent == 0 && p.lastInfected == None
    }

    ghost predicate FoundersBetween(ps: map<int, Phage>, lo: int, hi: int, o: Oracle)
    {
      forall id {:trigger IsFounder(ps[id], o)} :: lo < id <= hi && id in ps ==> IsFounder(ps[id], o)
    }

    /** The constant attributes of a recruited bacterium. */
    ghost predicate IsRecruit(b: Bacterium, o: Oracle)
    {
      && b.genotype == Choice01(params.fractionBM1, o.uniform(RecruitGenotype(b.id)))
      && b.methylation == Methylated(b.genotype)
      && b.reDegradeForeign == (if b.genotype == 0 then params.reDegradeForeign0 else params.reDegradeForeign1)
    }

    ghost predicate RecruitsBetween(bs: map<int, Bacterium>, lo: int, hi: int, o: Oracle)
    {
      forall id {:trigger IsRecruit(bs[id], o)} :: lo < id <= hi && id in bs ==> IsRecruit(bs[id], o)
    }

    /** The constant attributes of a spike-in phage. */
    ghost predicate IsSpikeIn(p: Phage, affinity0: real, methylation: int)
    {
      && p.genotype == 0 && p.methylation == Methylated(methylation)
      && p.affinity == Evolvable.NewVector([affinity0, 1.0 - affinity0],
                                           params.phageMutationStep, params.phageMutationFreq)
      && p.parent == -1 && p.lastInfected == None
    }

    ghost predicate SpikeInsBelow(ps: map<int, Phage>, n: int, affinity0: real, methylation: int)
    {
      forall id {:trigger IsSpikeIn(ps[id], affinity0, methylation)} :: IsSpikeInId(id, n) && id in ps ==> IsSpikeIn(ps[id], affinity0, methylation)
    }

    /** The constant attributes of an offspring of `parent` bursting from
        `host`. */
    ghost predicate IsOffspring(c: Phage, host: Bacterium, parent: Phage, o: Oracle)
      requires GoodAffinity(parent.affinity)
    {
      && c.genotype == parent.genotype
      && c.methylation == InheritedMethylation(params.epiInheritance, host.methylation, parent.methylation,
                                               Bernoulli(params.epiInheritance, o.uniform(Inherit(c.id))),
                                               o.coin(c.id))
      && c.affinity == Evolvable.Copy(parent.affinity, Fires(parent.affinity, o, c.id),
                                      Signs(parent.affinity, o, c.id))
      && c.parent == parent.id && c.lastInfected == Some(host.genotype)
    }

    ghost predicate OffspringBetween(ps: map<int, Phage>, lo: int, hi: int, host: Bacterium, parent: Phage, o: Oracle)
      requires GoodAffinity(parent.affinity)
    {
      forall id {:trigger IsOffspring(ps[id], host, parent, o)} :: lo < id <= hi && id in ps ==> IsOffspring(ps[id], host, parent, o)
    }

    // ----- construction

    /** `__init__` once the encounter width is known to be valid: the
        founder phage under ids 1 .. initial_phage, then the founder
        bacteria under the ids that follow. */
    constructor (params: Params, o: Oracle)
      requires 0.0 <= params.encounterWidth <= 1.0
      ensures Valid() && this.params == params && time == 0 && history == [] && tree == {}
      ensures currentId == Max0(params.initialPhage) + Max0(params.initialBacteria)
      ensures |phages| == Max0(params.initialPhage) && |bacteria| == Max0(params.initialBacteria)
      ensures ExtendsWithRange(map[], phages, 0, Max0(params.initialPhage))
      ensures FoundersBetween(phages, 0, Max0(params.initialPhage), o)
      ensures ExtendsWithRange(map[], bacteria, Max0(params.initialPhage), currentId)
      ensures RecruitsBetween(bacteria, Max0(params.initialPhage), currentId, o)
      ensures forall id :: id in phages ==> Pristine(phages[id], params.phageInactivationTime)
      ensures forall id :: id in bacteria ==> Uninfected(bacteria[id])
    {
      this.params := params;
      currentId := 0;
      time := 0;
      phages := map[];
      bacteria := map[];
      tree := {};
      history := [];
      phagePool := {};
      bacteriumPool := {};
      new;
      Populate(o);
    }

    /** The part of `__init__` that fills the empty model: `add_phage`,
        then `add_bacteria(initial_bacteria)`. */
    method Populate(o: Oracle)
      requires Valid() && currentId == 0 && phages == map[] && bacteria == map[]
      modifies this`currentId, this`phages, this`bacteria, this`phagePool, this`bacteriumPool
      ensures Valid()
      ensures currentId == Max0(params.initialPhage) + Max0(params.initialBacteria)
      ensures |phages| == Max0(params.initialPhage) && |bacteria| == Max0(params.initialBacteria)
      ensures ExtendsWithRange(map[], phages, 0, Max0(params.initialPhage))
      ensures FoundersBetween(phages, 0, Max0(params.initialPhage), o)
      ensures forall id :: id in phages ==> Pristine(phages[id], params.phageInactivationTime)
      ensures ExtendsWithRange(map[], bacteria, Max0(params.initialPhage), currentId)
      ensures RecruitsBetween(bacteria, Max0(params.initialPhage), currentId, o)
      ensures forall id :: id in bacteria ==> Uninfected(bacteria[id])
    {
      AddPhage(o);
      AddBacteria(params.initialBacteria, o);
    }

    /** `get_next_ID`. */
    method GetNextId() returns (id: int)
      modifies this`currentId
      ensures id == old(currentId) + 1 && currentId == id
    {
      currentId := currentId + 1;
      id := currentId;
    }

    /** The body of the loop of `add_phage`: a founder phage whose
        methylation and genotype are drawn with the initial fractions and
        whose affinity row favours its own genotype. */
    method NewFounder(id: int, o: Oracle) returns (phage: Phage)
      requires id > 0
      ensures fresh(phage) && phage.id == id && IsFounder(phage, o)
      ensures Pristine(phage, params.phageInactivationTime) && GoodAffinity(phage.affinity)
    {
      var rm := Choice01(params.initialFractionPM1, o.uniform(FounderMethylation(id)));
      var g := Choice01(params.initialFractionPG1, o.uniform(FounderGenotype(id)));
      var affinity := Evolvable.NewVector(AffinityRow(params.phageOffDiagonal, g),
                                          params.phageMutationStep, params.phageMutationFreq);
      phage := new Phage(id, g, Methylated(rm), params.phageInactivationTime, affinity, 0, None);
    }

    /** One pass of the loop of `add_phage`: a founder under the next id. */
    method AddFounder(o: Oracle, ghost before: map<int, Phage>, ghost lo: int)
      requires Valid() && lo <= currentId
      requires ExtendsWithRange(before, phages, lo, currentId) && FoundersBetween(phages, lo, currentId, o)
      modifies this`currentId, this`phages, this`phagePool
      ensures Valid() && currentId == old(currentId) + 1 && |phages| == old(|phages|) + 1
      ensures ExtendsWithRange(before, phages, lo, currentId) && FoundersBetween(phages, lo, currentId, o)
      ensures currentId in phages && phages == old(phages)[currentId := phages[currentId]]
      ensures Pristine(phages[currentId], params.phageInactivationTime)
    {
      var id := GetNextId();
      var phage := NewFounder(id, o);
      FounderJoins(id - 1, phages, bacteria, phagePool, bacteriumPool, before, lo, phage, o);
      phages := phages[id := phage];
      phagePool := phagePool + {phage};
    }

    /** A founder under the next id keeps the population consistent and
        extends the run of founders by one. */
    lemma FounderJoins(top: int, ps: map<int, Phage>, bs: map<int, Bacterium>, phagePool: set<Phage>,
                       bacteriumPool: set<Bacterium>, before: map<int, Phage>, lo: int, p: Phage, o: Oracle)
      requires Consistent(top, ps, bs, phagePool, bacteriumPool)
      requires lo <= top && ExtendsWithRange(before, ps, lo, top) && FoundersBetween(ps, lo, top, o)
      requires p.id == top + 1 && IsFounder(p, o) && GoodAffinity(p.affinity)
      ensures Consistent(top + 1, ps[p.id := p], bs, phagePool + {p}, bacteriumPool)
      ensures p.id !in ps && |ps[p.id := p]| == |ps| + 1
      ensures ExtendsWithRange(before, ps[p.id := p], lo, top + 1) && FoundersBetween(ps[p.id := p], lo, top + 1, o)
    {
      ExtendRangeByOne(before, ps, lo, top, p);
      ConsistentAddPhage(top, ps, bs, phagePool, bacteriumPool, p);
    }

    /** `add_phage`: the founder phage, with fresh ids. */
    method AddPhage(o: Oracle)
      requires Valid()
      modifies this`currentId, this`phages, this`phagePool
      ensures Valid()
      ensures currentId == old(currentId) + Max0(params.initialPhage)
      ensures |phages| == old(|phages|) + Max0(params.initialPhage)
      ensures ExtendsWithRange(old(phages), phages, old(currentId), currentId)
      ensures FoundersBetween(phages, old(currentId), currentId, o)
      ensures (forall id :: id in phages && old(currentId) < id ==> Pristine(phages[id], params.phageInactivationTime))
    {
      var i := 0;
      while i < params.initialPhage
        invariant Valid() && 0 <= i <= Max0(params.initialPhage) && currentId == old(currentId) + i
        invariant |phages| == old(|phages|) + i
        invariant ExtendsWithRange(old(phages), phages, old(currentId), currentId)
        invariant FoundersBetween(phages, old(currentId), currentId, o)
        invariant (forall id :: id in phages && old(currentId) < id ==> Pristine(phages[id], params.phageInactivationTime))
      {
        AddFounder(o, old(phages), old(currentId));
        i := i + 1;
      }
    }

    /** The body of the loop of `add_bacteria`: a recruit whose genotype is
        drawn with the bacterial fraction, methylated as its genotype, with
        the restriction efficiency of that genotype. */
    method NewRecruit(id: int, o: Oracle) returns (b: Bacterium)
      requires id > 0
      ensures fresh(b) && b.id == id && IsRecruit(b, o) && Uninfected(b)
      ensures b.genotype == 0 || b.genotype == 1
    {
      var g := Choice01(params.fractionBM1, o.uniform(RecruitGenotype(id)));
      if g == 0 {
        b := new Bacterium(id, g, Methylated(g), params.reDegradeForeign0);
      } else {
        b := new Bacterium(id, g, Methylated(g), params.reDegradeForeign1);
      }
    }

    /** One pass of the loop of `add_bacteria`: a recruit under the next id. */
    method AddRecruit(o: Oracle, ghost before: map<int, Bacterium>, ghost lo: int)
      requires Valid() && lo <= currentId
      requires ExtendsWithRange(before, bacteria, lo, currentId) && RecruitsBetween(bacteria, lo, currentId, o)
      modifies this`currentId, this`bacteria, this`bacteriumPool
      ensures Valid() && currentId == old(currentId) + 1 && |bacteria| == old(|bacteria|) + 1
      ensures ExtendsWithRange(before, bacteria, lo, currentId) && RecruitsBetween(bacteria, lo, currentId, o)
      ensures currentId in bacteria && bacteria == old(bacteria)[currentId := bacteria[currentId]]
      ensures Uninfected(bacteria[currentId]) && fresh(bacteria[currentId])
      ensures bacteriumPool == old(bacteriumPool) + {bacteria[currentId]}
    {
      var id := GetNextId();
      var b := NewRecruit(id, o);
      RecruitJoins(id - 1, phages, bacteria, phagePool, bacteriumPool, before, lo, b, o);
      bacteria := bacteria[id := b];
      bacteriumPool := bacteriumPool + {b};
    }

    /** A recruit under the next id keeps the population consistent and
        extends the run of recruits by one. */
    lemma RecruitJoins(top: int, ps: map<int, Phage>, bs: map<int, Bacterium>, phagePool: set<Phage>,
                       bacteriumPool: set<Bacterium>, before: map<int, Bacterium>, lo: int, b: Bacterium, o: Oracle)
      requires Consistent(top, ps, bs, phagePool, bacteriumPool)
      requires lo <= top && ExtendsWithRange(before, bs, lo, top) && RecruitsBetween(bs, lo, top, o)
      requires b.id == top + 1 && IsRecruit(b, o) && (b.genotype == 0 || b.genotype == 1)
      ensures Consistent(top + 1, ps, bs[b.id := b], phagePool, bacteriumPool + {b})
      ensures b.id !in bs && |bs[b.id := b]| == |bs| + 1
      ensures ExtendsWithRange(before, bs[b.id := b], lo, top + 1) && RecruitsBetween(bs[b.id := b], lo, top + 1, o)
    {
      ExtendRangeByOne(before, bs, lo, top, b);
      ConsistentAddBacterium(top, ps, bs, phagePool, bacteriumPool, b);
    }

    /** `add_bacteria(num)`: `num` recruits with fresh ids; a recruit's
        methylation is its genotype and its restriction efficiency is that
        of its genotype. */
    method AddBacteria(num: int, o: Oracle)
      requires Valid()
      modifies this`currentId, this`bacteria, this`bacteriumPool
      ensures Valid()
      ensures currentId == old(currentId) + Max0(num)
      ensures |bacteria| == old(|bacteria|) + Max0(num)
      ensures ExtendsWithRange(old(bacteria), bacteria, old(currentId), currentId)
      ensures RecruitsBetween(bacteria, old(currentId), currentId, o)
      ensures (forall id :: id in bacteria && old(currentId) < id <= currentId ==> Uninfected(bacteria[id]))
      ensures forall b :: b in bacteriumPool ==> b in old(bacteriumPool) || fresh(b)
    {
      var i := 0;
      while i < num
        invariant Valid() && 0 <= i <= Max0(num) && currentId == old(currentId) + i
        invariant |bacteria| == old(|bacteria|) + i
        invariant ExtendsWithRange(old(bacteria), bacteria, old(currentId), currentId)
        invariant RecruitsBetween(bacteria, old(currentId), currentId, o)
        invariant (forall id :: id in bacteria && old(currentId) < id <= currentId ==> Uninfected(bacteria[id]))
        invariant forall b :: b in bacteriumPool ==> b in old(bacteriumPool) || fresh(b)
      {
        AddRecruit(o, old(bacteria), old(currentId));
        i := i + 1;
      }
    }

    /** One pass of the loop of the `SpikeIn` constructor: phage number `i`
        under id -10 * i. */
    method AddSpikeIn(i: int, affinity: Evolvable.Vector, affinity0: real, methylation: int,
                      ghost before: map<int, Phage>)
      requires Valid() && i >= 1
      requires affinity == Evolvable.NewVector([affinity0, 1.0 - affinity0],
                                               params.phageMutationStep, params.phageMutationFreq)
      requires forall id :: id in before ==> id > 0
      requires ExtendsWithSpikeIns(before, phages, i) && SpikeInsBelow(phages, i, affinity0, methylation)
      requires (forall id :: id in phages && id < 0 ==> Pristine(phages[id], params.phageInactivationTime))
      modifies this`phages, this`phagePool
      ensures Valid() && |phages| == old(|phages|) + 1
      ensures ExtendsWithSpikeIns(before, phages, i + 1) && SpikeInsBelow(phages, i + 1, affinity0, methylation)
      ensures (forall id :: id in phages && id < 0 ==> Pristine(phages[id], params.phageInactivationTime))
    {
      var phage := new Phage(i * -10, 0, Methylated(methylation), params.phageInactivationTime, affinity, -1, None);
      ExtendSpikeInsByOne(before, phages, i, phage);
      ConsistentAddSpikeIn(currentId, phages, bacteria, phagePool, bacteriumPool, phage);
      SpikeInsAdd(phages, i, phage, affinity0, methylation);
      phages := phages[i * -10 := phage];
      phagePool := phagePool + {phage};
    }

    lemma SpikeInsAdd(ps: map<int, Phage>, i: int, p: Phage, affinity0: real, methylation: int)
      requires i >= 1 && p.id == -10 * i && IsSpikeIn(p, affinity0, methylation)
      requires SpikeInsBelow(ps, i, affinity0, methylation)
      ensures SpikeInsBelow(ps[p.id := p], i + 1, affinity0, methylation)
    {
      var n, ps' := i + 1, ps[p.id := p];
      forall id | IsSpikeInId(id, n) && id in ps'
        ensures IsSpikeIn(ps'[id], affinity0, methylation)
      {
        SpikeInIdStep(id, i);
      }
    }

    /** The `SpikeIn` model's extra phage: burst_size - 1 phage of
        genotype 0 under ids -10, -20, ..., with the given methylation,
        parent -1, and all the same affinity vector. */
    method AddSpikeIns(affinity0: real, methylation: int)
      requires Valid() && forall id :: id in phages ==> id > 0
      modifies this`phages, this`phagePool
      ensures Valid()
      ensures |phages| == old(|phages|) + Max0(params.phageBurstSize - 1)
      ensures ExtendsWithSpikeIns(old(phages), phages, params.phageBurstSize)
      ensures SpikeInsBelow(phages, params.phageBurstSize, affinity0, methylation)
      ensures (forall id :: id in phages && id < 0 ==> Pristine(phages[id], params.phageInactivationTime))
    {
      var affinity := Evolvable.NewVector([affinity0, 1.0 - affinity0],
                                          params.phageMutationStep, params.phageMutationFreq);
      var i := 1;
      while i < params.phageBurstSize
        invariant Valid() && 1 <= i && (i <= params.phageBurstSize || i == 1)
        invariant |phages| == old(|phages|) + (i - 1)
        invariant ExtendsWithSpikeIns(old(phages), phages, i)
        invariant SpikeInsBelow(phages, i, affinity0, methylation)
        invariant (forall id :: id in phages && id < 0 ==> Pristine(phages[id], params.phageInactivationTime))
      {
        AddSpikeIn(i, affinity, affinity0, methylation, old(phages));
        i := i + 1;
      }
      assert ExtendsWithSpikeIns(old(phages), phages, params.phageBurstSize) by {
        if params.phageBurstSize < 1 {
          forall id ensures !IsSpikeInId(id, params.phageBurstSize) && !IsSpikeInId(id, 1) {}
        }
      }
      assert SpikeInsBelow(phages, params.phageBurstSize, affinity0, methylation) by {
        if params.phageBurstSize < 1 {
          forall id ensures !IsSpikeInId(id, params.phageBurstSize) {}
        }
      }
    }
    // ----- one step

    /** The loop at the start of `step` that scatters the bacteria: a fresh
        tree holding one interval per bacterium at a random position. */
    method RebuildTree(o: Oracle)
      modifies this`tree
      ensures tree == Placement(o, time, bacteria.Keys)
      ensures TreeOver()
    {
      tree := {};
      var rest := bacteria.Keys;
      while rest != {}
        invariant rest <= bacteria.Keys
        invariant tree == Placement(o, time, bacteria.Keys - rest)
        decreases |rest|
      {
        ghost var some := Pick(rest);
        var id :| id in rest;
        ghost var done := bacteria.Keys - rest;
        PlacementAdd(o, time, done, id);
        tree := tree + {Spot(o, time, id)};
        rest := rest - {id};
        assert bacteria.Keys - rest == done + {id};
      }
    }

    /** `Phage.inactivate`: the countdown drops by one, and a phage whose
        countdown has run out, or that infected last step, leaves the
        schedule. */
    method Inactivate(p: Phage) returns (removed: bool)
      requires Valid() && p.id in phages && phages[p.id] == p
      modifies this`phages, p`inactivation
      ensures Valid() && p.inactivation == old(p.inactivation) - 1
      ensures removed <==> p.inactivation < 0 || p.dead
      ensures phages == if removed then old(phages) - {p.id} else old(phages)
      ensures |phages| == if removed then old(|phages|) - 1 else old(|phages|)
    {
      p.inactivation := p.inactivation - 1;
      removed := p.inactivation < 0 || p.dead;
      if removed {
        MapRemoveCard(phages, p.id);
        ConsistentRemovePhage(currentId, phages, bacteria, phagePool, bacteriumPool, p.id);
        phages := phages - {p.id};
      }
    }

    /** The bacteria phage `p` meets in this step: those whose intervals
        overlap the window of half the encounter width around the phage's
        random position, wrapping around the ends of the world. */
    function Met(p: Phage, o: Oracle): (ids: set<int>)
      reads this`tree, this`time, this`bacteria
      ensures TreeOver() ==> ids <= bacteria.Keys
    {
      var pos := o.uniform(Strike(time, p.id));
      Encounter.Encountered(tree, pos, params.encounterWidth / 2.0)
    }

    /** Whether the infection trial of phage `p` against bacterium `id`
        succeeds: it does with the phage's affinity for the bacterium's
        genotype. */
    ghost predicate Succeeds(p: Phage, o: Oracle, id: int)
      requires Binary(bacteria) && GoodAffinity(p.affinity) && id in bacteria
      reads this`bacteria, this`time
    {
      Bernoulli(p.affinity.vector[bacteria[id].genotype], o.uniform(Trial(time, p.id, id)))
    }

    /** The trials of phage `p` against the bacteria of `order`, in order. */
    function Trials(p: Phage, order: seq<int>, o: Oracle): (r: seq<bool>)
      requires Binary(bacteria) && GoodAffinity(p.affinity)
      requires forall k :: 0 <= k < |order| ==> order[k] in bacteria
      reads this`bacteria, this`time
      ensures |r| == |order|
      ensures forall k :: 0 <= k < |order| ==> (r[k] <==> Succeeds(p, o, order[k]))
      decreases |order|
    {
      if order == [] then []
      else
        var id := order[0];
        assert id in bacteria;
        var g := bacteria[id].genotype;
        assert g == 0 || g == 1;
        [Bernoulli(p.affinity.vector[g], o.uniform(Trial(time, p.id, id)))] + Trials(p, order[1..], o)
    }

    /** `id` comes in `order` after only bacteria whose trial fails. */
    ghost predicate FirstSucceeding(p: Phage, o: Oracle, order: seq<int>, id: int)
      requires Binary(bacteria) && GoodAffinity(p.affinity)
      reads this`bacteria, this`time
    {
      exists k :: 0 <= k < |order| && order[k] == id &&
        forall j :: 0 <= j < k ==> order[j] in bacteria && !Succeeds(p, o, order[j])
    }

    /** The first success among the trials is the first succeeding bacterium. */
    lemma FirstTrialSucceeding(p: Phage, o: Oracle, order: seq<int>, k: nat)
      requires Binary(bacteria) && GoodAffinity(p.affinity)
      requires forall i :: 0 <= i < |order| ==> order[i] in bacteria
      requires k < |order| && forall j :: 0 <= j < k ==> !Trials(p, order, o)[j]
      ensures FirstSucceeding(p, o, order, order[k])
    {
      var trials := Trials(p, order, o);
      forall j | 0 <= j < k ensures order[j] in bacteria && !Succeeds(p, o, order[j]) {
        assert !trials[j];
      }
    }

    /** The bacterium phage `p` infects in this step, if any: the first of
        the bacteria it meets, in shuffled order, whose trial succeeds. */
    function Target(p: Phage, o: Oracle): (r: Option<int>)
      requires Binary(bacteria) && TreeOver() && Admissible(o) && GoodAffinity(p.affinity)
      reads this`bacteria, this`time, this`tree
      ensures r.Some? ==> r.value in Met(p, o) && r.value in bacteria && Succeeds(p, o, r.value)
      ensures r.Some? ==> FirstSucceeding(p, o, o.shuffle(time, p.id, Met(p, o)), r.value)
      ensures r.None? <==> forall id :: id in Met(p, o) ==> !Succeeds(p, o, id)
    {
      var met := Met(p, o);
      if |met| == 0 then None
      else
        var order := o.shuffle(time, p.id, met);
        assert forall k :: 0 <= k < |order| ==> order[k] in met;
        var trials := Trials(p, order, o);
        match IndexOfFirst(trials, (x: bool) => x)
        case None =>
          assert forall id :: id in met ==> !Succeeds(p, o, id) by {
            forall id | id in met ensures !Succeeds(p, o, id) {
              var k :| 0 <= k < |order| && order[k] == id;
              assert !trials[k];
            }
          }
          None
        case Some(k) =>
          FirstTrialSucceeding(p, o, order, k);
          Some(order[k])
    }

    /** `Phage.infect`: the phage meets the bacteria near a random position
        and infects the first one, in shuffled order, whose trial succeeds;
        it is spent either way, but an occupied cell keeps its phage. */
    method Infect(p: Phage, o: Oracle)
      requires Valid() && TreeOver() && Admissible(o)
      requires p.id in phages && phages[p.id] == p
      modifies p`dead, bacteriumPool`phage
      ensures GoodAffinity(p.affinity)
      ensures p.dead <==> old(p.dead) || old(Target(p, o)).Some?
      ensures forall id :: id in bacteria ==>
        bacteria[id].phage == (if old(Target(p, o)) == Some(id) && old(bacteria[id].phage) == null then p
                               else old(bacteria[id].phage))
      ensures forall b :: b in bacteriumPool && !(b.id in bacteria && bacteria[b.id] == b) ==> b.phage == old(b.phage)
    {
      assert GoodAffinity(phages[p.id].affinity);
      var target := Target(p, o);
      if target.Some? {
        var b := bacteria[target.value];
        if b.phage != null {
          p.dead := true;
        } else {
          b.phage := p;
          p.dead := true;
        }
      }
    }

    /** `Phage.step`: inactivate, and try to infect if still scheduled. */
    method PhageStep(p: Phage, o: Oracle) returns (removed: bool)
      requires Valid() && TreeOver() && Admissible(o)
      requires p.id in phages && phages[p.id] == p
      modifies this`phages, p`inactivation, p`dead, bacteriumPool`phage
      ensures Valid() && TreeOver() && GoodAffinity(p.affinity)
      ensures p.inactivation == old(p.inactivation) - 1
      ensures removed <==> old(p.dead) || p.inactivation < 0
      ensures phages == if removed then old(phages) - {p.id} else old(phages)
      ensures |phages| == if removed then old(|phages|) - 1 else old(|phages|)
      ensures removed ==> p.dead == old(p.dead)
      ensures !removed ==> (p.dead <==> old(Target(p, o)).Some?)
      ensures forall id :: id in bacteria ==>
        bacteria[id].phage == (if !removed && old(Target(p, o)) == Some(id) && old(bacteria[id].phage) == null then p
                               else old(bacteria[id].phage))
      ensures forall b :: b in bacteriumPool && !(b.id in bacteria && bacteria[b.id] == b) ==> b.phage == old(b.phage)
    {
      assert GoodAffinity(phages[p.id].affinity);
      ghost var target := Target(p, o);
      removed := Inactivate(p);
      if !removed {
        assert Target(p, o) == target;
        Infect(p, o);
      }
    }

    /** The body of a burst loop: an offspring of `parent` released from
        `host`, with the parent's genotype, a methylation chosen by the
        inheritance mode, and a mutated copy of the parent's affinity. */
    method NewOffspring(id: int, host: Bacterium, parent: Phage, o: Oracle) returns (c: Phage)
      requires id > 0 && GoodAffinity(parent.affinity)
      ensures fresh(c) && c.id == id && IsOffspring(c, host, parent, o)
      ensures Pristine(c, params.phageInactivationTime) && GoodAffinity(c.affinity)
    {
      var methylation: Methylation;
      if params.epiInheritance != -1.0 && params.epiInheritance != -2.0 {
        if Bernoulli(params.epiInheritance, o.uniform(Inherit(id))) {
          methylation := host.methylation;
        } else {
          methylation := Unmethylated;
        }
      } else if params.epiInheritance == -1.0 {
        methylation := parent.methylation;
      } else {
        methylation := Methylated(o.coin(id));
      }
      var affinity := Evolvable.Copy(parent.affinity, Fires(parent.affinity, o, id), Signs(parent.affinity, o, id));
      c := new Phage(id, parent.genotype, methylation, params.phageInactivationTime, affinity,
                     parent.id, Some(host.genotype));
    }

    /** One pass of a burst loop: an offspring under the next id. */
    method AddOffspring(host: Bacterium, parent: Phage, o: Oracle, ghost before: map<int, Phage>, ghost lo: int)
      requires Valid() && lo <= currentId && GoodAffinity(parent.affinity)
      requires ExtendsWithRange(before, phages, lo, currentId)
      requires OffspringBetween(phages, lo, currentId, host, parent, o)
      modifies this`currentId, this`phages, this`phagePool
      ensures Valid() && currentId == old(currentId) + 1 && |phages| == old(|phages|) + 1
      ensures ExtendsWithRange(before, phages, lo, currentId)
      ensures OffspringBetween(phages, lo, currentId, host, parent, o)
      ensures currentId in phages && phages == old(phages)[currentId := phages[currentId]]
      ensures Pristine(phages[currentId], params.phageInactivationTime)
      ensures forall p :: p in phagePool ==> p in old(phagePool) || fresh(p)
    {
      var id := GetNextId();
      var c := NewOffspring(id, host, parent, o);
      ExtendRangeByOne(before, phages, lo, id - 1, c);
      ConsistentAddPhage(id - 1, phages, bacteria, phagePool, bacteriumPool, c);
      OffspringAdd(phages, lo, c, host, parent, o);
      phages := phages[id := c];
      phagePool := phagePool + {c};
    }

    lemma OffspringAdd(ps: map<int, Phage>, lo: int, c: Phage, host: Bacterium, parent: Phage, o: Oracle)
      requires GoodAffinity(parent.affinity)
      requires OffspringBetween(ps, lo, c.id - 1, host, parent, o) && IsOffspring(c, host, parent, o)
      ensures OffspringBetween(ps[c.id := c], lo, c.id, host, parent, o)
    {
    }

    /** The burst loops of `Bacteria.step`: `phage_burst_size` offspring of
        the phage inside `host`, with fresh ids. */
    method Burst(host: Bacterium, parent: Phage, o: Oracle)
      requires Valid() && GoodAffinity(parent.affinity)
      modifies this`currentId, this`phages, this`phagePool
      ensures Valid()
      ensures currentId == old(currentId) + Max0(params.phageBurstSize)
      ensures |phages| == old(|phages|) + Max0(params.phageBurstSize)
      ensures ExtendsWithRange(old(phages), phages, old(currentId), currentId)
      ensures OffspringBetween(phages, old(currentId), currentId, host, parent, o)
      ensures forall id :: id in phages && old(currentId) < id ==> Pristine(phages[id], params.phageInactivationTime)
      ensures forall p :: p in phagePool ==> p in old(phagePool) || fresh(p)
    {
      var i := 0;
      while i < params.phageBurstSize
        invariant Valid() && 0 <= i <= Max0(params.phageBurstSize) && currentId == old(currentId) + i
        invariant |phages| == old(|phages|) + i
        invariant ExtendsWithRange(old(phages), phages, old(currentId), currentId)
        invariant OffspringBetween(phages, old(currentId), currentId, host, parent, o)
        invariant forall id :: id in phages && old(currentId) < id ==> Pristine(phages[id], params.phageInactivationTime)
        invariant forall p :: p in phagePool ==> p in old(phagePool) || fresh(p)
      {
        AddOffspring(host, parent, o, old(phages), old(currentId));
        i := i + 1;
      }
    }

    /** Lysis: the burst, then the cell leaves the schedule. */
    method Lyse(b: Bacterium, o: Oracle)
      requires Valid() && b.id in bacteria && bacteria[b.id] == b && b.phage != null
      modifies this`currentId, this`phages, this`bacteria, this`phagePool
      ensures Valid() && bacteria == old(bacteria) - {b.id} && |bacteria| == old(|bacteria|) - 1
      ensures currentId == old(currentId) + Max0(params.phageBurstSize)
      ensures |phages| == old(|phages|) + Max0(params.phageBurstSize)
      ensures ExtendsWithRange(old(phages), phages, old(currentId), currentId)
      ensures OffspringBetween(phages, old(currentId), currentId, b, b.phage, o)
      ensures forall id :: id in phages && old(currentId) < id ==> Pristine(phages[id], params.phageInactivationTime)
      ensures forall p :: p in phagePool ==> p in old(phagePool) || fresh(p)
    {
      Burst(b, b.phage, o);
      MapRemoveCard(bacteria, b.id);
      ConsistentRemoveBacterium(currentId, phages, bacteria, phagePool, bacteriumPool, b.id);
      bacteria := bacteria - {b.id};
    }

    /** `Bacteria.step`: an infected cell first checks its phage for
        degradation; a phage that survives makes the cell lyse with
        probability `latency`. An uninfected cell does nothing. */
    method BacteriumStep(b: Bacterium, o: Oracle) returns (lysed: bool)
      requires Valid() && b.id in bacteria && bacteria[b.id] == b
      modifies this`currentId, this`phages, this`bacteria, this`phagePool, b`phage, b`established
      ensures Valid()
      ensures old(b.phage) == null ==> !lysed && b.phage == null && b.established == old(b.established)
      ensures old(b.phage) != null && DestroysPhage(b.methylation, old(b.established), old(b.phage).methylation,
                                                    b.reDegradeForeign, o.uniform(Degrade(time, b.id))) ==>
        !lysed && b.phage == null && b.established == old(b.established)
      ensures old(b.phage) != null && !DestroysPhage(b.methylation, old(b.established), old(b.phage).methylation,
                                                     b.reDegradeForeign, o.uniform(Degrade(time, b.id))) ==>
        b.phage == old(b.phage)
        && (b.established <==> old(b.established) || b.methylation != old(b.phage).methylation)
        && (lysed <==> Bernoulli(params.latency, o.uniform(Lysis(time, b.id))))
      ensures lysed ==> bacteria == old(bacteria) - {b.id}
      ensures lysed ==> currentId == old(currentId) + Max0(params.phageBurstSize)
      ensures lysed ==> ExtendsWithRange(old(phages), phages, old(currentId), currentId)
      ensures lysed ==> OffspringBetween(phages, old(currentId), currentId, b, old(b.phage), o)
      ensures !lysed ==> bacteria == old(bacteria) && phages == old(phages) && currentId == old(currentId)
      ensures |bacteria| == old(|bacteria|) - (if lysed then 1 else 0)
      ensures |phages| == old(|phages|) + (if lysed then Max0(params.phageBurstSize) else 0)
      ensures forall p :: p in phagePool ==> p in old(phagePool) || fresh(p)
    {
      lysed := false;
      if b.phage != null {
        var degraded := b.MaybeDegrade(o.uniform(Degrade(time, b.id)));
        if degraded {
          b.phage := null;
        } else if Bernoulli(params.latency, o.uniform(Lysis(time, b.id))) {
          Lyse(b, o);
          lysed := true;
        }
      }
    }

    // ----- the scheduler's step

    /** The phage half of the scheduler's step: every phage scheduled at the
        start of the pass steps once, in the order the scheduler draws, and
        the ones that were spent or expired leave the schedule. */
    method PhagePass(o: Oracle) returns (ghost cleared: set<int>)
      requires Valid() && TreeOver() && Admissible(o)
      modifies this`phages, phagePool`inactivation, phagePool`dead, bacteriumPool`phage
      ensures Valid() && TreeOver()
      ensures cleared <= old(phages).Keys && phages == old(phages) - cleared
      ensures |phages| == old(|phages|) - |cleared|
    {
      ghost var before := phages;
      var order := o.activation(time, PhageBreed, phages.Keys);
      cleared := {};
      var i := 0;
      while i < |order|
        invariant 0 <= i <= |order| && Valid() && TreeOver()
        invariant forall k :: i <= k < |order| ==> order[k] in phages
        invariant forall j, k :: 0 <= j < k < |order| ==> order[j] != order[k]
        invariant cleared <= before.Keys && phages == before - cleared && |phages| == |before| - |cleared|
      {
        var p := phages[order[i]];
        var removed := PhageStep(p, o);
        if removed {
          MapRemoveMore(before, cleared, order[i]);
          cleared := cleared + {order[i]};
        }
        i := i + 1;
      }
    }

    /** The bacteria half of the scheduler's step: every bacterium
        scheduled at the start of the pass steps once, in the order the
        scheduler draws; each lysis releases a burst of offspring under
        fresh ids. */
    method BacteriaPass(o: Oracle) returns (ghost lysed: set<int>)
      requires Valid() && IsEnumeration(o.activation(time, BacteriaBreed, bacteria.Keys), bacteria.Keys)
      modifies this`currentId, this`phages, this`bacteria, this`phagePool
      modifies bacteriumPool`phage, bacteriumPool`established
      ensures Valid()
      ensures lysed <= old(bacteria).Keys && bacteria == old(bacteria) - lysed
      ensures |bacteria| == old(|bacteria|) - |lysed|
      ensures currentId == old(currentId) + |lysed| * Max0(params.phageBurstSize)
      ensures |phages| == old(|phages|) + |lysed| * Max0(params.phageBurstSize)
      ensures ExtendsWithRange(old(phages), phages, old(currentId), currentId)
      ensures forall p :: p in phagePool ==> p in old(phagePool) || fresh(p)
    {
      ghost var before := bacteria;
      var order := o.activation(time, BacteriaBreed, bacteria.Keys);
      lysed := {};
      ghost var released := 0;
      var i := 0;
      while i < |order|
        invariant 0 <= i <= |order| && Valid()
        invariant forall k :: i <= k < |order| ==> order[k] in bacteria
        invariant forall j, k :: 0 <= j < k < |order| ==> order[j] != order[k]
        invariant lysed <= before.Keys && bacteria == before - lysed && |bacteria| == |before| - |lysed|
        invariant released == Released(|lysed|, Max0(params.phageBurstSize))
        invariant currentId == old(currentId) + released && |phages| == old(|phages|) + released
        invariant ExtendsWithRange(old(phages), phages, old(currentId), currentId)
        invariant forall p :: p in phagePool ==> p in old(phagePool) || fresh(p)
      {
        lysed, released := BacteriaTurn(order[i], o, before, lysed, released, old(phages), old(currentId));
        i := i + 1;
      }
      ReleasedIsProduct(|lysed|, Max0(params.phageBurstSize));
    }

    /** One turn of the bacteria pass: bacterium `id` steps, and a lysis
        takes it off the schedule and adds a burst to the phage. */
    method BacteriaTurn(id: int, o: Oracle, ghost before: map<int, Bacterium>, ghost lysed: set<int>,
                        ghost released: nat, ghost phages0: map<int, Phage>, ghost top: int)
      returns (ghost lysed': set<int>, ghost released': nat)
      requires Valid() && id in bacteria && id !in lysed
      requires lysed <= before.Keys && bacteria == before - lysed && |bacteria| == |before| - |lysed|
      requires released == Released(|lysed|, Max0(params.phageBurstSize))
      requires currentId == top + released && ExtendsWithRange(phages0, phages, top, currentId)
      requires |phages| == |phages0| + released
      modifies this`currentId, this`phages, this`bacteria, this`phagePool
      modifies bacteriumPool`phage, bacteriumPool`established
      ensures Valid() && lysed' <= before.Keys && (lysed' == lysed || lysed' == lysed + {id})
      ensures bacteria == before - lysed' && |bacteria| == |before| - |lysed'|
      ensures released' == Released(|lysed'|, Max0(params.phageBurstSize))
      ensures currentId == top + released' && ExtendsWithRange(phages0, phages, top, currentId)
      ensures |phages| == |phages0| + released'
      ensures forall p :: p in phagePool ==> p in old(phagePool) || fresh(p)
    {
      var b := bacteria[id];
      var wasLysed := BacteriumStep(b, o);
      ExtendsTransitive(phages0, old(phages), phages, top, old(currentId), currentId);
      lysed', released' := TurnBookkeeping(before, lysed, released, Max0(params.phageBurstSize), id, wasLysed,
                                           old(bacteria), bacteria);
    }

    /** The scheduler's step (random activation by breed): the phage
        pass, then the bacteria pass, then the step counter advances. */
    method ScheduleStep(o: Oracle) returns (ghost cleared: set<int>, ghost lysed: set<int>)
      requires Valid() && TreeOver() && Admissible(o)
      modifies this`time, this`currentId, this`phages, this`bacteria, this`phagePool
      modifies phagePool`inactivation, phagePool`dead, bacteriumPool`phage, bacteriumPool`established
      ensures Valid() && time == old(time) + 1
      ensures cleared <= old(phages).Keys && lysed <= old(bacteria).Keys
      ensures bacteria == old(bacteria) - lysed && |bacteria| == old(|bacteria|) - |lysed|
      ensures currentId == old(currentId) + |lysed| * Max0(params.phageBurstSize)
      ensures ExtendsWithRange(old(phages) - cleared, phages, old(currentId), currentId)
      ensures |phages| == old(|phages|) - |cleared| + |lysed| * Max0(params.phageBurstSize)
      ensures forall p :: p in phagePool ==> p in old(phagePool) || fresh(p)
    {
      cleared := PhagePass(o);
      lysed := BacteriaPass(o);
      time := time + 1;
    }

    /** `step`: record the census, scatter the bacteria afresh, let the
        scheduler step every agent, then add `bacteria_per_step` new
        bacteria. Returns, as ghosts, the ids of the phage that left and
        of the bacteria that lysed. */
    method Step(o: Oracle) returns (ghost cleared: set<int>, ghost lysed: set<int>)
      requires Valid() && Admissible(o)
      modifies this`history, this`tree, this`time, this`currentId, this`phages, this`bacteria
      modifies this`phagePool, this`bacteriumPool
      modifies phagePool`inactivation, phagePool`dead, bacteriumPool`phage, bacteriumPool`established
      ensures Valid() && time == old(time) + 1
      ensures history == old(history) + [old(CensusNow())]
      ensures tree == Placement(o, old(time), old(bacteria).Keys)
      ensures cleared <= old(phages).Keys && lysed <= old(bacteria).Keys
      ensures |phages| == old(|phages|) - |cleared| + |lysed| * Max0(params.phageBurstSize)
      ensures ExtendsWithRange(old(bacteria) - lysed, bacteria,
                               old(currentId) + |lysed| * Max0(params.phageBurstSize), currentId)
      ensures currentId == old(currentId) + |lysed| * Max0(params.phageBurstSize) + Max0(params.bacteriaPerStep)
      ensures |bacteria| == old(|bacteria|) - |lysed| + Max0(params.bacteriaPerStep)
      ensures forall p :: p in phagePool ==> p in old(phagePool) || fresh(p)
      ensures forall b :: b in bacteriumPool ==> b in old(bacteriumPool) || fresh(b)
    {
      history := history + [CensusNow()];
      RebuildTree(o);
      cleared, lysed := ScheduleStep(o);
      AddBacteria(params.bacteriaPerStep, o);
    }

    /** `run_model`: `step_count` steps (none for a negative count). */
    method RunModel(stepCount: int, o: Oracle)
      requires Valid() && Admissible(o)
      modifies this`history, this`tree, this`time, this`currentId, this`phages, this`bacteria
      modifies this`phagePool, this`bacteriumPool
      modifies phagePool`inactivation, phagePool`dead, bacteriumPool`phage, bacteriumPool`established
      ensures Valid() && time == old(time) + Max0(stepCount)
      ensures |history| == old(|history|) + Max0(stepCount) && history[..old(|history|)] == old(history)
      ensures stepCount > 0 ==> history[old(|history|)] == old(CensusNow())
    {
      ghost var start, first := history, CensusNow();
      var i := 0;
      while i < stepCount
        invariant Valid() && 0 <= i <= Max0(stepCount) && time == old(time) + i
        invariant |history| == |start| + i && history[..|start|] == start
        invariant if i == 0 then CensusNow() == first else history[|start|] == first
        invariant forall p :: p in phagePool ==> p in old(phagePool) || fresh(p)
        invariant forall b :: b in bacteriumPool ==> b in old(bacteriumPool) || fresh(b)
      {
        var _, _ := Step(o);
        i := i + 1;
      }
    }
  }

  lemma ExtendsTransitive<V>(a: map<int, V>, b: map<int, V>, c: map<int, V>, lo: int, mid: int, hi: int)
    requires lo <= mid <= hi
    requires ExtendsWithRange(a, b, lo, mid) && ExtendsWithRange(b, c, mid, hi)
    ensures ExtendsWithRange(a, c, lo, hi)
  {
  }

  /** The offspring of `n` bursts of `m` each, counted burst by burst. */
  function Released(n: nat, m: nat): nat
  {
    if n == 0 then 0 else Released(n - 1, m) + m
  }

  /** The bookkeeping of one bacteria turn: a lysed bacterium joins the
      lysed set and its burst joins the released count. */
  lemma TurnBookkeeping<T>(before: map<int, T>, lysed: set<int>, released: nat, m: nat, id: int, wasLysed: bool,
                           now: map<int, T>, next: map<int, T>)
    returns (lysed': set<int>, released': nat)
    requires lysed <= before.Keys && now == before - lysed && |now| == |before| - |lysed|
    requires released == Released(|lysed|, m) && id in now
    requires next == if wasLysed then now - {id} else now
    requires |next| == |now| - (if wasLysed then 1 else 0)
    ensures lysed' <= before.Keys && (lysed' == lysed || lysed' == lysed + {id})
    ensures next == before - lysed' && |next| == |before| - |lysed'|
    ensures released' == Released(|lysed'|, m)
    ensures released' == released + (if wasLysed then m else 0)
  {
    lysed', released' := lysed, released;
    if wasLysed {
      MapRemoveMore(before, lysed, id);
      lysed' := lysed + {id};
      assert |lysed'| == |lysed| + 1;
      released' := released + m;
    }
  }

  lemma {:induction false} ReleasedIsProduct(n: nat, m: nat)
    ensures Released(n, m) == n * m
  {
    if n > 0 {
      ReleasedIsProduct(n - 1, m);
      assert n * m == (n - 1) * m + m;
    }
  }

  lemma MapRemoveMore<K, V>(m: map<K, V>, gone: set<K>, k: K)
    requires k in m && k !in gone
    ensures (m - gone) - {k} == m - (gone + {k})
  {
  }

  /** `BaseModel(...)`: the constructor refuses an encounter width
      outside [0, 1] before creating any agent. */
  method NewModel(params: Params, o: Oracle) returns (r: Result<Model, ModelError>)
    ensures r.Failure? <==> params.encounterWidth < 0.0 || params.encounterWidth > 1.0
    ensures r.Failure? ==> r.error == EncounterWidthOutOfRange
    ensures r.Success? ==> fresh(r.value) && r.value.Valid() && r.value.params == params
    ensures r.Success? ==> r.value.time == 0 && r.value.history == []
    ensures r.Success? ==> |r.value.phages| == Max0(params.initialPhage)
    ensures r.Success? ==> |r.value.bacteria| == Max0(params.initialBacteria)
    ensures r.Success? ==> r.value.currentId == Max0(params.initialPhage) + Max0(params.initialBacteria)
    ensures r.Success? ==> ExtendsWithRange(map[], r.value.phages, 0, Max0(params.initialPhage))
    ensures r.Success? ==> r.value.FoundersBetween(r.value.phages, 0, Max0(params.initialPhage), o)
    ensures r.Success? ==> ExtendsWithRange(map[], r.value.bacteria, Max0(params.initialPhage), r.value.currentId)
    ensures r.Success? ==> r.value.RecruitsBetween(r.value.bacteria, Max0(params.initialPhage), r.value.currentId, o)
    ensures r.Success? ==> forall id :: id in r.value.phages ==> Pristine(r.value.phages[id], params.phageInactivationTime)
    ensures r.Success? ==> forall id :: id in r.value.bacteria ==> Uninfected(r.value.bacteria[id])
  {
    if params.encounterWidth > 1.0 || params.encounterWidth < 0.0 {
      return Failure(EncounterWidthOutOfRange);
    }
    var m := new Model(params, o);
    return Success(m);
  }

  /** `SpikeIn(...)`: the base model, then the spike-in phage under the
      negative ids -10, -20, ..., -10 * (burst_size - 1). */
  method NewSpikeIn(params: Params, affinity0: real, methylation: int, o: Oracle)
    returns (r: Result<Model, ModelError>)
    ensures r.Failure? <==> params.encounterWidth < 0.0 || params.encounterWidth > 1.0
    ensures r.Failure? ==> r.error == EncounterWidthOutOfRange
    ensures r.Success? ==> fresh(r.value) && r.value.Valid() && r.value.params == params
    ensures r.Success? ==> |r.value.phages| == Max0(params.initialPhage) + Max0(params.phageBurstSize - 1)
    ensures r.Success? ==> |r.value.bacteria| == Max0(params.initialBacteria)
    ensures r.Success? ==> r.value.SpikeInsBelow(r.value.phages, params.phageBurstSize, affinity0, methylation)
    ensures r.Success? ==> r.value.time == 0 && r.value.history == []
    ensures r.Success? ==> forall id :: id in r.value.phages <==>
              (0 < id <= Max0(params.initialPhage)) || IsSpikeInId(id, params.phageBurstSize)
    ensures r.Success? ==> r.value.FoundersBetween(r.value.phages, 0, Max0(params.initialPhage), o)
    ensures r.Success? ==> r.value.currentId == Max0(params.initialPhage) + Max0(params.initialBacteria)
    ensures r.Success? ==> ExtendsWithRange(map[], r.value.bacteria, Max0(params.initialPhage), r.value.currentId)
    ensures r.Success? ==> r.value.RecruitsBetween(r.value.bacteria, Max0(params.initialPhage), r.value.currentId, o)
    ensures r.Success? ==> forall id :: id in r.value.phages ==> Pristine(r.value.phages[id], params.phageInactivationTime)
    ensures r.Success? ==> forall id :: id in r.value.bacteria ==> Uninfected(r.value.bacteria[id])
  {
    if params.encounterWidth > 1.0 || params.encounterWidth < 0.0 {
      return Failure(EncounterWidthOutOfRange);
    }
    var m := new Model(params, o);
    m.AddSpikeIns(affinity0, methylation);
    return Success(m);
  }

  lemma ConsistentRemovePhage(top: int, ps: map<int, Phage>, bs: map<int, Bacterium>,
                              phagePool: set<Phage>, bacteriumPool: set<Bacterium>, id: int)
    requires Consistent(top, ps, bs, phagePool, bacteriumPool)
    ensures Consistent(top, ps - {id}, bs, phagePool, bacteriumPool)
  {
  }

  lemma ConsistentRemoveBacterium(top: int, ps: map<int, Phage>, bs: map<int, Bacterium>,
                                  phagePool: set<Phage>, bacteriumPool: set<Bacterium>, id: int)
    requires Consistent(top, ps, bs, phagePool, bacteriumPool)
    ensures Consistent(top, ps, bs - {id}, phagePool, bacteriumPool)
  {
  }

  /** The interval bacterium `id` occupies in step `step`: it starts at the
      oracle's position draw and is `AgentWidth` wide. */
  function Spot(o: Oracle, step: nat, id: int): Interval<int>
  {
    var u := o.uniform(Position(step, id));
    Interval(u, u + AgentWidth, id)
  }

  /** The tree of a step: one spot per bacterium. */
  function Placement(o: Oracle, step: nat, ids: set<int>): (tree: set<Interval<int>>)
    ensures forall iv :: iv in tree ==> iv.data in ids && iv == Spot(o, step, iv.data)
    ensures forall id :: id in ids ==> Spot(o, step, id) in tree
  {
    set id | id in ids :: Spot(o, step, id)
  }

  lemma PlacementAdd(o: Oracle, step: nat, ids: set<int>, id: int)
    ensures Placement(o, step, ids + {id}) == Placement(o, step, ids) + {Spot(o, step, id)}
  {
  }

  lemma ExtendRangeByOne<V>(before: map<int, V>, m: map<int, V>, lo: int, hi: int, v: V)
    requires lo <= hi && ExtendsWithRange(before, m, lo, hi) && hi + 1 !in m
    ensures ExtendsWithRange(before, m[hi + 1 := v], lo, hi + 1)
    ensures |m[hi + 1 := v]| == |m| + 1
  {
  }

  /** |A| <= |B| for A a subset of B. */
  lemma SubsetCard<T>(a: set<T>, b: set<T>)
    requires a <= b
    ensures |a| <= |b|
  {
    assert b == a + (b - a);
  }
}
