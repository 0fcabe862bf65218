/** The helpers of `rm_abm/helper_functions.py` that the parameter sweeps
    and the lineage analyses use: value normalisation, the expansion of a
    parameter dictionary into one keyword dictionary per combination, the
    lineage of a set of phage, and the accessors behind the collected
    agent columns. */
module Helpers {
  import opened Common
  import Evolvable
  import RmAbm

  // ----- parameter values

  /** The Python values a parameter dictionary holds: numbers (booleans
      count as numbers, as `numbers.Number` says), strings, lists, and
      anything else (`None`, say). */
  datatype Value =
    | Bool(b: bool)
    | Int(i: int)
    | Float(x: real)
    | Str(s: string)
    | List(items: seq<Value>)
    | Other

  predicate IsNumber(v: Value)
  {
    v.Bool? || v.Int? || v.Float?
  }

  /** `float(v)` for a number. */
  function ToFloat(v: Value): (x: real)
    requires IsNumber(v)
    ensures v.Float? ==> x == v.x
    ensures v.Int? ==> x == v.i as real
    ensures v.Bool? ==> x == if v.b then 1.0 else 0.0
  {
    match v
    case Bool(b) => if b then 1.0 else 0.0
    case Int(i) => i as real
    case Float(x) => x
  }

  /** `make_iterable`: a list is kept as it is; anything else, a string
      included, becomes the list holding just that value. */
  function MakeIterable(v: Value): (r: Value)
    ensures r.List?
    ensures v.List? ==> r == v
    ensures !v.List? ==> |r.items| == 1 && r.items[0] == v
    ensures forall w :: w in r.items <==> (if v.List? then w in v.items else w == v)
  {
    if v.List? then v else List([v])
  }

  lemma MakeIterableIdempotent(v: Value)
    ensures MakeIterable(MakeIterable(v)) == MakeIterable(v)
  {
  }

  /** Some element is a float. */
  predicate SomeFloat(items: seq<Value>)
  {
    exists i :: 0 <= i < |items| && items[i].Float?
  }

  /** Every element is a number. */
  predicate AllNumbers(items: seq<Value>)
  {
    forall i :: 0 <= i < |items| ==> IsNumber(items[i])
  }

  /** `b` is `a`, or `a` is a number and `b` is that number as a float. */
  predicate SameNumber(a: Value, b: Value)
  {
    b == a || (IsNumber(a) && b == Float(ToFloat(a)))
  }

  /** `make_list_float`: a list of numbers with at least one float becomes
      a list of floats with the same values; every other value, a string,
      a list of ints or a list holding a non-number included, is kept. */
  function MakeListFloat(v: Value): (r: Value)
    ensures r.List? <==> v.List?
    ensures v.List? ==> |r.items| == |v.items| && forall i :: 0 <= i < |v.items| ==> SameNumber(v.items[i], r.items[i])
    ensures v.List? && SomeFloat(v.items) && AllNumbers(v.items) ==>
      forall i :: 0 <= i < |r.items| ==> r.items[i].Float?
    ensures !(v.List? && SomeFloat(v.items) && AllNumbers(v.items)) ==> r == v
  {
    if v.List? && SomeFloat(v.items) && AllNumbers(v.items) then
      List(seq(|v.items|, i requires 0 <= i < |v.items| => Float(ToFloat(v.items[i]))))
    else
      v
  }

  /** Converting twice converts no further. */
  lemma MakeListFloatIdempotent(v: Value)
    ensures MakeListFloat(MakeListFloat(v)) == MakeListFloat(v)
  {
    var r := MakeListFloat(v);
    if v.List? && SomeFloat(v.items) && AllNumbers(v.items) {
      var k :| 0 <= k < |v.items| && v.items[k].Float?;
      assert r.items[k].Float?;
      assert forall i :: 0 <= i < |r.items| ==> ToFloat(r.items[i]) == r.items[i].x;
      assert MakeListFloat(r).items == r.items;
    }
  }

  // ----- the Cartesian product, in the order of `itertools.product`

  /** The number of combinations: the product of the range lengths. */
  function Size<V>(ranges: seq<seq<V>>): nat
  {
    if |ranges| == 0 then 1 else |ranges[0]| * Size(ranges[1..])
  }

  /** Every `[x] + t`, for `x` in `xs` (slowest) and `t` in `tails`
      (fastest). */
  function Prepend<V>(xs: seq<V>, tails: seq<seq<V>>): (r: seq<seq<V>>)
    ensures |r| == |xs| * |tails|
    ensures forall k :: 0 <= k < |r| ==> |r[k]| > 0 && r[k][1..] in tails
  {
    if |xs| == 0 then []
    else
      var rest := Prepend(xs[1..], tails);
      assert |xs| * |tails| == |tails| + (|xs| - 1) * |tails|;
      seq(|tails|, j requires 0 <= j < |tails| => [xs[0]] + tails[j]) + rest
  }

  /** `itertools.product(*ranges)`: every combination taking one element
      of each range, the first range varying slowest. */
  function Product<V>(ranges: seq<seq<V>>): (r: seq<seq<V>>)
    ensures |r| == Size(ranges)
    ensures forall k :: 0 <= k < |r| ==> |r[k]| == |ranges|
  {
    if |ranges| == 0 then [[]] else Prepend(ranges[0], Product(ranges[1..]))
  }

  /** `idx` picks one position in each range. */
  ghost predicate IsIndex<V>(ranges: seq<seq<V>>, idx: seq<int>)
  {
    |idx| == |ranges| && forall k :: 0 <= k < |idx| ==> 0 <= idx[k] < |ranges[k]|
  }

  /** The combination an index tuple picks. */
  function Select<V>(ranges: seq<seq<V>>, idx: seq<int>): (t: seq<V>)
    requires IsIndex(ranges, idx)
    ensures |t| == |ranges| && forall k :: 0 <= k < |t| ==> t[k] == ranges[k][idx[k]]
  {
    seq(|idx|, k requires 0 <= k < |idx| && IsIndex(ranges, idx) => ranges[k][idx[k]])
  }

  /** The position of an index tuple read as a mixed-radix number, the
      last digit counting fastest. */
  function Rank<V>(ranges: seq<seq<V>>, idx: seq<int>): int
    requires |idx| == |ranges|
  {
    if |idx| == 0 then 0 else idx[0] * Size(ranges[1..]) + Rank(ranges[1..], idx[1..])
  }

  /** `idx` comes before `idy` in dictionary order. */
  predicate LexLess(idx: seq<int>, idy: seq<int>)
    requires |idx| == |idy|
  {
    |idx| > 0 && (idx[0] < idy[0] || (idx[0] == idy[0] && LexLess(idx[1..], idy[1..])))
  }

  lemma {:induction false} PrependAt<V>(xs: seq<V>, tails: seq<seq<V>>, i: int, j: int)
    requires 0 <= i < |xs| && 0 <= j < |tails|
    ensures 0 <= i * |tails| + j < |xs| * |tails|
    ensures Prepend(xs, tails)[i * |tails| + j] == [xs[i]] + tails[j]
  {
    var n := |tails|;
    MulBelow(i, |xs|, n);
    if i > 0 {
      PrependAt(xs[1..], tails, i - 1, j);
      assert i * n == (i - 1) * n + n;
    }
  }

  /** An index tuple splits into its first position and an index tuple of
      the remaining ranges. */
  lemma SelectCons<V>(ranges: seq<seq<V>>, idx: seq<int>)
    requires IsIndex(ranges, idx) && |ranges| > 0
    ensures IsIndex(ranges[1..], idx[1..])
    ensures Select(ranges, idx) == [ranges[0][idx[0]]] + Select(ranges[1..], idx[1..])
  {
    var rest, tail := ranges[1..], idx[1..];
    forall k | 0 <= k < |tail| ensures 0 <= tail[k] < |rest[k]| {
      assert tail[k] == idx[k + 1] && rest[k] == ranges[k + 1];
    }
  }

  /** Every position of `Prepend(xs, tails)` is `i * |tails| + j` for a
      position `i` of `xs` and `j` of `tails`. */
  lemma {:induction false} PrependIndex<V>(xs: seq<V>, tails: seq<seq<V>>, p: int) returns (i: int, j: int)
    requires 0 <= p < |xs| * |tails|
    ensures 0 <= i < |xs| && 0 <= j < |tails| && p == i * |tails| + j
  {
    if p < |tails| {
      i, j := 0, p;
    } else {
      assert |xs| * |tails| == |tails| + (|xs| - 1) * |tails|;
      var i', j' := PrependIndex(xs[1..], tails, p - |tails|);
      i, j := i' + 1, j';
      assert i * |tails| == i' * |tails| + |tails|;
    }
  }

  /** Every index tuple has a position below the number of combinations,
      and the combination there is the one it picks. */
  lemma {:induction false} ProductAt<V>(ranges: seq<seq<V>>, idx: seq<int>)
    requires IsIndex(ranges, idx)
    ensures 0 <= Rank(ranges, idx) < Size(ranges)
    ensures Product(ranges)[Rank(ranges, idx)] == Select(ranges, idx)
  {
    if |ranges| > 0 {
      var rest, tail := ranges[1..], idx[1..];
      SelectCons(ranges, idx);
      ProductAt(rest, tail);
      PrependAt(ranges[0], Product(rest), idx[0], Rank(rest, tail));
    }
  }

  /** Every position holds the combination of some index tuple. */
  lemma {:induction false} ProductCovers<V>(ranges: seq<seq<V>>, p: int) returns (idx: seq<int>)
    requires 0 <= p < Size(ranges)
    ensures IsIndex(ranges, idx) && Rank(ranges, idx) == p
    ensures Product(ranges)[p] == Select(ranges, idx)
  {
    if |ranges| == 0 {
      idx := [];
    } else {
      var rest := ranges[1..];
      var a, b := PrependIndex(ranges[0], Product(rest), p);
      var tail := ProductCovers(rest, b);
      idx := [a] + tail;
      assert idx[1..] == tail;
      ProductAt(ranges, idx);
    }
  }

  lemma {:induction false} RankBelow<V>(ranges: seq<seq<V>>, idx: seq<int>)
    requires IsIndex(ranges, idx)
    ensures 0 <= Rank(ranges, idx) < Size(ranges)
  {
    ProductAt(ranges, idx);
  }

  /** Positions follow dictionary order on index tuples: the last range
      varies fastest. */
  lemma {:induction false} RankOrdered<V>(ranges: seq<seq<V>>, idx: seq<int>, idy: seq<int>)
    requires IsIndex(ranges, idx) && IsIndex(ranges, idy) && LexLess(idx, idy)
    ensures Rank(ranges, idx) < Rank(ranges, idy)
  {
    var rest, tx, ty := ranges[1..], idx[1..], idy[1..];
    assert IsIndex(rest, tx) && IsIndex(rest, ty) by {
      forall k | 0 <= k < |tx| ensures 0 <= tx[k] < |rest[k]| && 0 <= ty[k] < |rest[k]| {
        assert tx[k] == idx[k + 1] && ty[k] == idy[k + 1] && rest[k] == ranges[k + 1];
      }
    }
    var n := Size(rest);
    RankBelow(rest, tx);
    RankBelow(rest, ty);
    if idx[0] < idy[0] {
      MulBelow(idx[0], idy[0], n);
    } else {
      RankOrdered(rest, tx, ty);
    }
  }

  lemma {:induction false} MulBelow(a: int, b: int, n: nat)
    requires a < b
    ensures a * n + n <= b * n
    decreases b - a
  {
    assert (a + 1) * n == a * n + n;
    if a + 1 < b {
      MulBelow(a + 1, b, n);
    }
  }

  lemma {:induction false} LexTotal(idx: seq<int>, idy: seq<int>)
    requires |idx| == |idy| && idx != idy
    ensures LexLess(idx, idy) || LexLess(idy, idx)
  {
    if idx[0] == idy[0] {
      assert idx == [idx[0]] + idx[1..] && idy == [idy[0]] + idy[1..];
      LexTotal(idx[1..], idy[1..]);
    }
  }

  /** Distinct index tuples sit at distinct positions. */
  lemma RankInjective<V>(ranges: seq<seq<V>>, idx: seq<int>, idy: seq<int>)
    requires IsIndex(ranges, idx) && IsIndex(ranges, idy) && idx != idy
    ensures Rank(ranges, idx) != Rank(ranges, idy)
  {
    LexTotal(idx, idy);
    if LexLess(idx, idy) {
      RankOrdered(ranges, idx, idy);
    } else {
      RankOrdered(ranges, idy, idx);
    }
  }

  // ----- `unpack_params`

  /** A parameter dictionary in insertion order; a dictionary's keys are
      distinct. */
  ghost predicate DistinctKeys(params: seq<(string, Value)>)
  {
    forall j, k :: 0 <= j < k < |params| ==> params[j].0 != params[k].0
  }

  function Keys(params: seq<(string, Value)>): (keys: seq<string>)
    ensures |keys| == |params| && forall k :: 0 <= k < |params| ==> keys[k] == params[k].0
  {
    seq(|params|, k requires 0 <= k < |params| => params[k].0)
  }

  /** The range of each parameter, after `make_iterable`. */
  function Ranges(params: seq<(string, Value)>): (ranges: seq<seq<Value>>)
    ensures |ranges| == |params|
    ensures forall k :: 0 <= k < |params| ==> ranges[k] == MakeIterable(params[k].1).items
  {
    seq(|params|, k requires 0 <= k < |params| => MakeIterable(params[k].1).items)
  }

  /** The dictionary pairing each key with the value at its position. */
  function Zip(keys: seq<string>, values: seq<Value>): (d: map<string, Value>)
    requires |keys| == |values|
    ensures d.Keys == set k | k in keys
  {
    if |keys| == 0 then map[]
    else Zip(keys[..|keys| - 1], values[..|keys| - 1])[keys[|keys| - 1] := values[|keys| - 1]]
  }

  lemma {:induction false} ZipAt(keys: seq<string>, values: seq<Value>, k: int)
    requires |keys| == |values| && 0 <= k < |keys|
    requires forall i, j :: 0 <= i < j < |keys| ==> keys[i] != keys[j]
    ensures Zip(keys, values)[keys[k]] == values[k]
  {
    var n := |keys| - 1;
    if k < n {
      ZipAt(keys[..n], values[..n], k);
    }
  }

  /** `unpack_params`: one keyword dictionary per combination of the
      parameter ranges, a scalar counting as a range of one. */
  function UnpackParams(params: seq<(string, Value)>): (r: seq<map<string, Value>>)
    requires DistinctKeys(params)
    ensures |r| == Size(Ranges(params))
    ensures forall i :: 0 <= i < |r| ==> r[i].Keys == set k | k in Keys(params)
  {
    var combos := Product(Ranges(params));
    seq(|combos|, i requires 0 <= i < |combos| => Zip(Keys(params), combos[i]))
  }

  /** Each dictionary gives every key a value from its range ... */
  lemma UnpackParamsInRange(params: seq<(string, Value)>, i: int, k: int)
    requires DistinctKeys(params) && 0 <= i < |UnpackParams(params)| && 0 <= k < |params|
    ensures UnpackParams(params)[i][params[k].0] in MakeIterable(params[k].1).items
  {
    var idx := ProductCovers(Ranges(params), i);
    ZipAt(Keys(params), Select(Ranges(params), idx), k);
  }

  /** ... and every choice of one value per key is the dictionary at the
      position its index tuple ranks to, the last key varying fastest. */
  lemma UnpackParamsAt(params: seq<(string, Value)>, idx: seq<int>, k: int)
    requires DistinctKeys(params) && IsIndex(Ranges(params), idx) && 0 <= k < |params|
    ensures 0 <= Rank(Ranges(params), idx) < |UnpackParams(params)|
    ensures UnpackParams(params)[Rank(Ranges(params), idx)][params[k].0] == MakeIterable(params[k].1).items[idx[k]]
  {
    ProductAt(Ranges(params), idx);
    ZipAt(Keys(params), Select(Ranges(params), idx), k);
  }

  // ----- the agent columns

  /** A scheduled agent, as the data collector sees it. */
  datatype AgentRef = PhageRef(p: RmAbm.Phage) | BacteriumRef(b: RmAbm.Bacterium)

  /** `get_parent`: a phage's parent; NaN (`None`) for a bacterium. */
  function GetParent(a: AgentRef): (r: Option<int>)
    ensures r.Some? <==> a.PhageRef?
    ensures a.PhageRef? ==> r == Some(a.p.parent)
  {
    if a.PhageRef? then Some(a.p.parent) else None
  }

  /** `get_infected_ID`: the id of the phage inside an infected bacterium;
      NaN (`None`) for a phage and for an uninfected bacterium. */
  function GetInfectedId(a: AgentRef): (r: Option<int>)
    reads if a.BacteriumRef? then {a.b} else {}
    ensures r.Some? <==> a.BacteriumRef? && a.b.phage != null
    ensures r.Some? ==> r.value == a.b.phage.id
  {
    if a.PhageRef? then None
    else if a.b.phage == null then None
    else Some(a.b.phage.id)
  }

  /** Python's `s[i]`: negative positions count from the end; anything
      outside raises `IndexError` (`None`). */
  function PyIndex<T>(s: seq<T>, i: int): (r: Option<T>)
    ensures r.Some? <==> -|s| <= i < |s|
    ensures r.Some? ==> r.value == s[i % |s|]
  {
    if 0 <= i < |s| then Some(s[i])
    else if -|s| <= i < 0 then Some(s[|s| + i])
    else None
  }

  /** What the affinity column holds. */
  datatype Reading = Number(x: real) | NaN | IndexError

  function AffinityReading(e: Evolvable.Vector, genotype: int): (r: Reading)
    ensures r.IndexError? <==> PyIndex(e.vector, genotype).None?
    ensures r.Number? ==> r.x == PyIndex(e.vector, genotype).value
  {
    match PyIndex(e.vector, genotype)
    case Some(x) => Number(x)
    case None => IndexError
  }

  /** `get_affinity(genotype)(agent)`: a phage's affinity for the genotype;
      for a bacterium, that of the phage inside it, or NaN. */
  function GetAffinity(genotype: int, a: AgentRef): (r: Reading)
    reads if a.BacteriumRef? then {a.b} else {}
    ensures a.PhageRef? ==> r == AffinityReading(a.p.affinity, genotype)
    ensures r.NaN? <==> a.BacteriumRef? && a.b.phage == null
  {
    if a.PhageRef? then AffinityReading(a.p.affinity, genotype)
    else if a.b.phage == null then NaN
    else AffinityReading(a.b.phage.affinity, genotype)
  }

  /** An infected bacterium reports its phage's affinity and id. */
  lemma InfectedReportsItsPhage(genotype: int, b: RmAbm.Bacterium)
    requires b.phage != null
    ensures GetAffinity(genotype, BacteriumRef(b)) == GetAffinity(genotype, PhageRef(b.phage))
    ensures GetInfectedId(BacteriumRef(b)) == Some(b.phage.id)
    ensures GetParent(BacteriumRef(b)).None? && GetInfectedId(PhageRef(b.phage)).None?
  {
  }

  /** In range, a genotype of 0 or 1 reads the affinity row itself. */
  lemma AffinityOfGenotype(e: Evolvable.Vector, genotype: int)
    requires |e.vector| == 2 && (genotype == 0 || genotype == 1)
    ensures AffinityReading(e, genotype) == Number(e.vector[genotype])
  {
  }

  // ----- `get_descendents`

  /** One row of the collected agent data: the agent's id and its
      `parent` column (NaN, `None`, for a bacterium). */
  datatype Record = Record(agentId: int, parent: Option<int>)

  /** The argument `ID`: an int, a set, or anything else. */
  datatype Start = One(id: int) | Many(ids: set<int>) | Neither

  datatype LineageError = LineageUnbound

  /** The ids `ID` names. */
  function StartIds(start: Start): set<int>
  {
    match start
    case One(id) => {id}
    case Many(ids) => ids
    case Neither => {}
  }

  /** The rows of `data` whose parent is listed in `ids`, in
      their order. */
  function Children(data: seq<Record>, ids: seq<int>): (rows: seq<Record>)
    ensures forall r :: r in rows <==> r in data && r.parent.Some? && r.parent.value in ids
  {
    if |data| == 0 then []
    else
      var rest := Children(data[1..], ids);
      if data[0].parent.Some? && data[0].parent.value in ids then [data[0]] + rest else rest
  }

  /** The agent ids of `rows`, in order. */
  function AgentIds(rows: seq<Record>): (ids: seq<int>)
    ensures |ids| == |rows| && forall j :: 0 <= j < |rows| ==> ids[j] == rows[j].agentId
  {
    seq(|rows|, j requires 0 <= j < |rows| => rows[j].agentId)
  }

  /** Every row whose parent is in `s` has its own id in `s`. */
  ghost predicate ClosedUnderChildren(data: seq<Record>, s: set<int>)
  {
    forall r :: r in data && r.parent.Some? && r.parent.value in s ==> r.agentId in s
  }

  /** Parent links are acyclic: a rank that every child exceeds its parent
      in. */
  ghost predicate Ranked(data: seq<Record>, rank: int -> nat)
  {
    forall r :: r in data && r.parent.Some? ==> rank(r.parent.value) < rank(r.agentId)
  }

  ghost function MaxRank(data: seq<Record>, rank: int -> nat): (m: nat)
    ensures forall r :: r in data ==> rank(r.agentId) <= m
  {
    if |data| == 0 then 0
    else
      var m := MaxRank(data[1..], rank);
      assert forall r :: r in data ==> r == data[0] || r in data[1..];
      if rank(data[0].agentId) > m then rank(data[0].agentId) else m
  }

  /** `list(ID)` for a set: its elements in some order. */
  method ListOf(ids: set<int>) returns (l: seq<int>)
    ensures forall x :: x in l <==> x in ids
  {
    l := [];
    var rest := ids;
    while rest != {}
      invariant forall x :: x in ids <==> x in l || x in rest
      decreases |rest|
    {
      ghost var some := Pick(rest);
      var x :| x in rest;
      l := l + [x];
      rest := rest - {x};
    }
  }

  /** `get_descendents(data, ID)`: the start ids and every id reachable from
      them through child rows: the least set containing the start that is
      closed under children. An `ID` that is neither an int nor a set
      leaves the lineage unbound. The loop ends only because parent links
      are acyclic, which `rank` witnesses. */
  method GetDescendents(data: seq<Record>, start: Start, ghost rank: int -> nat)
    returns (r: Result<set<int>, LineageError>)
    requires Ranked(data, rank)
    ensures r.Failure? <==> start.Neither?
    ensures r.Success? ==> StartIds(start) <= r.value
    ensures r.Success? ==> ClosedUnderChildren(data, r.value)
    ensures r.Success? ==> forall s :: StartIds(start) <= s && ClosedUnderChildren(data, s)
                                       ==> r.value <= s
  {
    ghost var first := StartIds(start);
    var lineage: seq<int>;
    match start {
      case One(id) => lineage := [id];
      case Many(ids) => lineage := ListOf(ids);
      case Neither => return Failure(LineageUnbound);
    }
    assert forall x :: x in first <==> x in lineage;
    ghost var bound := MaxRank(data, rank);
    ghost var round: nat := 0;
    var frontierIds := lineage;
    var descendents := Children(data, lineage);
    while |descendents| > 0
      invariant forall x :: x in first ==> x in lineage
      invariant forall x :: x in frontierIds ==> x in lineage
      invariant descendents == Children(data, frontierIds)
      invariant forall d :: d in data && d.parent.Some? && d.parent.value in lineage ==>
                  d.agentId in lineage || d.parent.value in frontierIds
      invariant forall s :: first <= s && ClosedUnderChildren(data, s) ==> forall x :: x in lineage ==> x in s
      invariant forall d :: d in descendents ==> rank(d.agentId) > round
      decreases bound - round
    {
      var childIds := AgentIds(descendents);
      assert forall x :: x in frontierIds ==> x in lineage;
      assert rank(descendents[0].agentId) <= bound;
      forall d | d in Children(data, childIds) ensures rank(d.agentId) > round + 1 {
        var j :| 0 <= j < |childIds| && childIds[j] == d.parent.value;
        assert descendents[j] in descendents;
      }
      forall s | first <= s && ClosedUnderChildren(data, s) ensures forall x :: x in lineage + childIds ==> x in s {
        assert forall x :: x in lineage ==> x in s;
        forall x | x in childIds ensures x in s {
          var j :| 0 <= j < |childIds| && childIds[j] == x;
          var d := descendents[j];
          assert d in Children(data, frontierIds);
          assert d in data && d.parent.Some?;
          assert d.parent.value in frontierIds;
          assert d.parent.value in lineage;
          assert d.parent.value in s;
        }
      }
      lineage := lineage + childIds;
      frontierIds := childIds;
      descendents := Children(data, childIds);
      round := round + 1;
    }
    var lineageSet := set x | x in lineage;
    forall x | x in first ensures x in lineageSet {
      assert x in lineage;
    }
    forall s | first <= s && ClosedUnderChildren(data, s) ensures lineageSet <= s {
      assert forall x :: x in lineage ==> x in s;
    }
    return Success(lineageSet);
  }
}
