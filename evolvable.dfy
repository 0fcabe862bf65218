/** The evolvable trait vector of a phage: its affinity for each bacterial
    genotype. A vector is a value; copying it draws mutations and builds a
    new vector, the original is never touched.

    Random draws are inputs: `fires[i]` is the Bernoulli(mutation_frequency)
    outcome for component i, `signs[i]` the sign chosen when it fires. */
module Evolvable {
  import opened Common

  datatype Sign = Plus | Minus

  /** The two kinds of vector. `Constrained` additionally projects onto the
      rows of its bounding line. */
  datatype Vector =
    | Plain(vector: seq<real>, mutationSize: real, mutationFrequency: real)
    | Constrained(vector: seq<real>, mutationSize: real, mutationFrequency: real,
                  boundingLine: seq<seq<real>>)

  /** Why building or projecting a constrained vector fails: the line
      attribute is not assigned yet (AttributeError), the line has no rows
      (argmin of nothing, a ValueError), or its rows are not points of the
      vector's dimension (a shape ValueError). */
  datatype VectorError = MissingBoundingLine | EmptyBoundingLine | MisshapenBoundingLine

  function Abs(x: real): real { if x < 0.0 then -x else x }

  ghost predicate InUnit(v: seq<real>)
  {
    forall i :: 0 <= i < |v| ==> 0.0 <= v[i] <= 1.0
  }

  // ---------------------------------------------------------------------
  // Clamping

  /** The per-component clamp used by both kinds of vector. */
  function Clamp(x: real): (y: real)
    ensures 0.0 <= y <= 1.0
    ensures 0.0 <= x <= 1.0 ==> y == x
  {
    if x < 0.0 then 0.0 else if x > 1.0 then 1.0 else x
  }

  /** Clamping picks the point of [0,1] nearest to its argument. */
  lemma ClampIsNearest(x: real, z: real)
    requires 0.0 <= z <= 1.0
    ensures Abs(Clamp(x) - x) <= Abs(z - x)
  {
  }

  /** Clamping never moves a point of [0,1] further than it moved before. */
  lemma ClampContracts(x: real, y: real)
    requires 0.0 <= y <= 1.0
    ensures Abs(Clamp(x) - y) <= Abs(x - y)
  {
  }

  function Constrain(v: seq<real>): (r: seq<real>)
    ensures |r| == |v| && InUnit(r)
    ensures forall i :: 0 <= i < |v| ==> r[i] == Clamp(v[i])
    ensures InUnit(v) ==> r == v
  {
    seq(|v|, i requires 0 <= i < |v| => Clamp(v[i]))
  }

  lemma ConstrainIdempotent(v: seq<real>)
    ensures Constrain(Constrain(v)) == Constrain(v)
  {
  }

  // ---------------------------------------------------------------------
  // Mutation

  /** The step one component takes: nothing when its draw does not fire,
      the mutation size with the drawn sign when it does. */
  function Jump(fire: bool, sign: Sign, size: real): (r: real)
    ensures !fire ==> r == 0.0
    ensures fire ==> Abs(r) == Abs(size)
    ensures fire && size != 0.0 ==> (r > 0.0 <==> (sign == Plus) == (size > 0.0))
  {
    if !fire then 0.0 else if sign == Plus then size else -size
  }

  /** Adds +size or -size to every component whose draw fires. */
  function Mutate(v: seq<real>, size: real, fires: seq<bool>, signs: seq<Sign>): (r: seq<real>)
    requires |fires| == |v| && |signs| == |v|
    ensures |r| == |v|
    ensures forall i :: 0 <= i < |v| ==> r[i] == v[i] || r[i] == v[i] + size || r[i] == v[i] - size
    ensures forall i :: 0 <= i < |v| && !fires[i] ==> r[i] == v[i]
    ensures forall i :: 0 <= i < |v| && fires[i] ==>
              r[i] == (if signs[i] == Plus then v[i] + size else v[i] - size)
  {
    seq(|v|, i requires 0 <= i < |v| => v[i] + Jump(fires[i], signs[i], size))
  }

  // ---------------------------------------------------------------------
  // Plain vectors

  /** Building a vector stores the clamped components. */
  function NewVector(v: seq<real>, size: real, frequency: real): (e: Vector)
    ensures e.Plain? && e.mutationSize == size && e.mutationFrequency == frequency
    ensures |e.vector| == |v| && InUnit(e.vector)
    ensures InUnit(v) ==> e.vector == v
  {
    Plain(Constrain(v), size, frequency)
  }

  // ---------------------------------------------------------------------
  // Projection onto a bounding line

  /** a * b for non-negative factors, with its sign stated. */
  function Times(a: real, b: real): (r: real)
    requires a >= 0.0 && b >= 0.0
    ensures r >= 0.0
    ensures a > 0.0 && b > 0.0 ==> r > 0.0
  {
    a * b
  }

  /** x * x, computed as |x| * |x| so that its sign is evident. */
  function Sq(x: real): (r: real)
    ensures r >= 0.0
    ensures x != 0.0 ==> r > 0.0
  {
    Times(Abs(x), Abs(x))
  }

  /** Squared Euclidean distance. */
  function SqDist(a: seq<real>, b: seq<real>): (d: real)
    requires |a| == |b|
    ensures d >= 0.0
    decreases |a|
  {
    if |a| == 0 then 0.0
    else Sq(a[0] - b[0]) + SqDist(a[1..], b[1..])
  }

  lemma {:induction false} SqDistSelf(a: seq<real>)
    ensures SqDist(a, a) == 0.0
    decreases |a|
  {
    if |a| > 0 { SqDistSelf(a[1..]); }
  }

  lemma {:induction false} SqDistZero(a: seq<real>, b: seq<real>)
    requires |a| == |b| && SqDist(a, b) == 0.0
    ensures a == b
    decreases |a|
  {
    if |a| > 0 {
      SqDistZero(a[1..], b[1..]);
      assert a == [a[0]] + a[1..] && b == [b[0]] + b[1..];
    }
  }

  /** Every row of the line is a point of the vector's dimension. */
  predicate Fits(line: seq<seq<real>>, d: nat)
  {
    forall j :: 0 <= j < |line| ==> |line[j]| == d
  }

  ghost predicate RowsInUnit(line: seq<seq<real>>)
  {
    forall j :: 0 <= j < |line| ==> InUnit(line[j])
  }

  /** The index of the first row at minimal squared distance from p (numpy's
      argmin returns the first minimum). */
  function Nearest(line: seq<seq<real>>, p: seq<real>): (k: nat)
    requires |line| > 0 && Fits(line, |p|)
    ensures k < |line|
    ensures forall j :: 0 <= j < |line| ==> SqDist(line[k], p) <= SqDist(line[j], p)
    ensures forall j :: 0 <= j < k ==> SqDist(line[j], p) > SqDist(line[k], p)
    decreases |line|
  {
    if |line| == 1 then 0
    else
      var k := Nearest(line[..|line| - 1], p);
      if SqDist(line[|line| - 1], p) < SqDist(line[k], p) then |line| - 1 else k
  }

  /** Every coordinate of c exceeds the matching coordinate of p (numpy's
      `all` of no coordinates holds). */
  predicate StrictlyAbove(c: seq<real>, p: seq<real>)
    requires |c| == |p|
    ensures |c| == 0 ==> StrictlyAbove(c, p)
    ensures StrictlyAbove(c, p) && |c| > 0 ==> c != p && SqDist(c, p) > 0.0
  {
    var above := forall i :: 0 <= i < |p| ==> c[i] - p[i] > 0.0;
    assert above && |c| > 0 ==> c[0] != p[0] && Sq(c[0] - p[0]) > 0.0;
    above
  }

  /** The constrained projection: clamp, then keep the clamped point when the
      nearest row lies strictly above it, else replace it by that row. */
  function ConstrainToLine(line: seq<seq<real>>, v: seq<real>): (r: seq<real>)
    requires |line| > 0 && Fits(line, |v|)
    ensures |r| == |v|
    ensures var q := Constrain(v); var c := line[Nearest(line, q)];
              (StrictlyAbove(c, q) ==> r == q) && (!StrictlyAbove(c, q) ==> r == c)
  {
    var q := Constrain(v);
    var c := line[Nearest(line, q)];
    if StrictlyAbove(c, q) then q else c
  }

  /** The projection yields either the clamped point or a row of the line
      nearest to it; with rows inside the unit cube, the result stays there. */
  lemma ConstrainToLineResult(line: seq<seq<real>>, v: seq<real>)
    requires |line| > 0 && Fits(line, |v|)
    ensures var r := ConstrainToLine(line, v); var q := Constrain(v);
              r == q || (r in line && forall j :: 0 <= j < |line| ==> SqDist(r, q) <= SqDist(line[j], q))
    ensures RowsInUnit(line) ==> InUnit(ConstrainToLine(line, v))
  {
  }

  /** With rows inside the unit cube, projecting twice is projecting once. */
  lemma ConstrainToLineIdempotent(line: seq<seq<real>>, v: seq<real>)
    requires |line| > 0 && Fits(line, |v|) && RowsInUnit(line)
    ensures ConstrainToLine(line, ConstrainToLine(line, v)) == ConstrainToLine(line, v)
  {
    var q := Constrain(v);
    var k := Nearest(line, q);
    var c := line[k];
    if !StrictlyAbove(c, q) {
      // the result is the row c; projecting c finds a row at distance zero
      assert Constrain(c) == c;
      var k' := Nearest(line, c);
      SqDistSelf(c);
      assert SqDist(line[k'], c) <= SqDist(line[k], c) == 0.0;
      SqDistZero(line[k'], c);
    }
  }

  // ---------------------------------------------------------------------
  // Constrained vectors as written, and as intended

  /** The constrained projection as the object sees it: the bounding line is
      an attribute that may not have been assigned yet, and may have no rows
      or rows of the wrong dimension. */
  function ConstrainWithAttribute(line: Option<seq<seq<real>>>, v: seq<real>): (r: Result<seq<real>, VectorError>)
    ensures r.Success? <==> line.Some? && |line.value| > 0 && Fits(line.value, |v|)
    ensures line.None? ==> r == Failure(MissingBoundingLine)
    ensures line.Some? && |line.value| == 0 ==> r == Failure(EmptyBoundingLine)
    ensures line.Some? && |line.value| > 0 && !Fits(line.value, |v|) ==> r == Failure(MisshapenBoundingLine)
    ensures r.Success? ==> r.value == ConstrainToLine(line.value, v)
  {
    if line.None? then Failure(MissingBoundingLine)
    else if |line.value| == 0 then Failure(EmptyBoundingLine)
    else if !Fits(line.value, |v|) then Failure(MisshapenBoundingLine)
    else Success(ConstrainToLine(line.value, v))
  }

  /** Construction as written: the base initializer stores `constrain(vector)`
      while the bounding line is still unassigned, and only then is the line
      assigned, so the overriding `constrain` always fails. */
  function NewConstrainedAsWritten(v: seq<real>, size: real, frequency: real,
                                   line: seq<seq<real>>): (r: Result<Vector, VectorError>)
    ensures r == Failure(MissingBoundingLine)
  {
    match ConstrainWithAttribute(None, v)
    case Failure(err) => Failure(err)
    case Success(stored) => Success(Constrained(stored, size, frequency, line))
  }

  /** Construction as intended: the line is assigned before the vector is
      constrained, so only an empty or misshapen line makes it fail. */
  function NewConstrained(v: seq<real>, size: real, frequency: real,
                          line: seq<seq<real>>): (r: Result<Vector, VectorError>)
    ensures r.Failure? <==> |line| == 0 || !Fits(line, |v|)
    ensures r.Failure? ==> r.error == (if |line| == 0 then EmptyBoundingLine else MisshapenBoundingLine)
    ensures r.Success? ==> r.value.Constrained? && r.value.boundingLine == line
    ensures r.Success? ==> r.value.mutationSize == size && r.value.mutationFrequency == frequency
    ensures r.Success? ==> |r.value.vector| == |v| && WellFormed(r.value)
    ensures r.Success? && RowsInUnit(line) ==> InUnit(r.value.vector)
  {
    match ConstrainWithAttribute(Some(line), v)
    case Failure(err) => Failure(err)
    case Success(stored) =>
      ConstrainToLineResult(line, v);
      Success(Constrained(stored, size, frequency, line))
  }

  /** A vector whose line (if any) fits it. */
  ghost predicate WellFormed(e: Vector)
  {
    e.Constrained? ==> |e.boundingLine| > 0 && Fits(e.boundingLine, |e.vector|)
  }

  /** `copy`: mutate, constrain, and build a new vector of the same kind
      (which constrains once more). A constrained copy is built with the
      corrected constructor; as written it fails like every construction. */
  function Copy(e: Vector, fires: seq<bool>, signs: seq<Sign>): (r: Vector)
    requires WellFormed(e) && |fires| == |e.vector| && |signs| == |e.vector|
    ensures r.Plain? == e.Plain? && WellFormed(r)
    ensures |r.vector| == |e.vector|
    ensures r.mutationSize == e.mutationSize && r.mutationFrequency == e.mutationFrequency
    ensures e.Constrained? ==> r.boundingLine == e.boundingLine
    ensures e.Plain? ==> InUnit(r.vector)
    ensures e.Constrained? && RowsInUnit(e.boundingLine) ==> InUnit(r.vector)
  {
    var moved := Mutate(e.vector, e.mutationSize, fires, signs);
    match e
    case Plain(_, size, frequency) =>
      NewVector(Constrain(moved), size, frequency)
    case Constrained(_, size, frequency, line) =>
      var made := NewConstrained(ConstrainToLine(line, moved), size, frequency, line);
      assert made.Success?;
      made.value
  }

  /** When no mutation fires, copying a plain vector reproduces it. */
  lemma CopyWithoutMutation(e: Vector, fires: seq<bool>, signs: seq<Sign>)
    requires e.Plain? && InUnit(e.vector)
    requires |fires| == |e.vector| && |signs| == |e.vector|
    requires forall i :: 0 <= i < |fires| ==> !fires[i]
    ensures Copy(e, fires, signs) == e
  {
    assert Mutate(e.vector, e.mutationSize, fires, signs) == e.vector;
  }

  /** A copy of a plain vector moves each component by at most the mutation
      size, and leaves components whose draw did not fire unchanged. */
  lemma CopyMovesLittle(e: Vector, fires: seq<bool>, signs: seq<Sign>, i: nat)
    requires e.Plain? && InUnit(e.vector) && e.mutationSize >= 0.0
    requires |fires| == |e.vector| && |signs| == |e.vector| && i < |e.vector|
    ensures Abs(Copy(e, fires, signs).vector[i] - e.vector[i]) <= e.mutationSize
    ensures !fires[i] ==> Copy(e, fires, signs).vector[i] == e.vector[i]
  {
    var moved := Mutate(e.vector, e.mutationSize, fires, signs);
    ClampContracts(moved[i], e.vector[i]);
  }

  /** With rows in the unit cube, the double projection in `copy` of a
      constrained vector equals a single projection. */
  lemma CopyConstrainedProjectsOnce(e: Vector, fires: seq<bool>, signs: seq<Sign>)
    requires e.Constrained? && WellFormed(e) && RowsInUnit(e.boundingLine)
    requires |fires| == |e.vector| && |signs| == |e.vector|
    ensures Copy(e, fires, signs).vector
            == ConstrainToLine(e.boundingLine, Mutate(e.vector, e.mutationSize, fires, signs))
  {
    ConstrainToLineIdempotent(e.boundingLine, Mutate(e.vector, e.mutationSize, fires, signs));
  }
}
