# phage-abm core, modelled in Dafny

This project models the agent-based simulation of phage and bacteria with
restriction-modification (RM) systems, together with the evolving affinity
vectors it uses and the helper functions the parameter sweeps and lineage
analyses rely on.

In the simulation, phage drift in a circular world of width one. Each step:

1. A phage meets the bacteria whose small intervals overlap a window around
   a random position.
2. It tries to infect them one by one, in shuffled order.
3. It infects the first one whose trial succeeds, and is spent either way.
4. An infected bacterium's restriction system degrades a phage whose
   methylation differs from its own, with the bacterium's degradation
   probability. Otherwise the infection becomes established.
5. With the latency probability, the cell lyses and releases a burst of
   offspring. The offspring copy the parent's genotype, a mutated copy of
   its affinity vector, and a methylation that depends on the inheritance
   mode.
6. New bacteria are recruited every step.

Files:

- `common.dfy`: `Option`, `Result`, and what it means for a sequence to list
  a set exactly once.
- `evolvable.dfy`: `EvolvableVector` and `EvolvableVectorConstrained`, as
  values. Mutation draws are inputs.
- `interval_tree.dfy`: the part of the interval-tree library the simulation
  uses, which is half-open slices of a set of intervals. It also holds the
  encounter geometry: a window that wraps around 0 and 1, over intervals
  that do not wrap.
- `rm_abm.dfy`: the simulation.
  - `Phage`, `Bacterium` and `Model` are classes whose fields the methods
    update in place.
  - The live agents are maps from id to object, as the scheduler keeps
    them.
  - The filters, the reporters and the random-draw plumbing are functions.
  - Every random draw is answered by an `Oracle`, keyed by where the draw
    happens: the step, the agent, and the id of the agent being created.
    This makes a whole run a deterministic function of the oracle, so it
    can be specified.
- `helpers.dfy`:
  - `make_iterable`, `make_list_float` and `unpack_params`, over a small
    datatype of Python values;
  - the agent accessors `get_parent`, `get_infected_ID` and
    `get_affinity`;
  - `get_descendents`, as an imperative method with the source's while loop.

The scheduler is `RandomActivationByBreed`, and its source
(`rm_abm/wolfsheep_schedule.py`) is not part of this model. Its step is
modelled as:

1. one pass over the phage scheduled at the start of the pass;
2. one pass over the bacteria scheduled at the start of the pass.

Each pass runs in an order the oracle draws, and the clock then advances.

## Model

| member | source | states |
|---|---|---|
| Evolvable.Clamp | rm_abm/evolvable.py:39-44 | the clamped value lies in [0, 1] and equals the input when the input already does |
| Evolvable.ClampIsNearest | rm_abm/evolvable.py:39-44 | clamping picks the point of [0, 1] nearest the input |
| Evolvable.ClampContracts | rm_abm/evolvable.py:39-44 | clamping never moves a value away from any point of [0, 1] |
| Evolvable.Constrain | rm_abm/evolvable.py:38-45 | the result has the input's length, clamps each component, lies in the unit cube, and is the input itself when the input already lies there |
| Evolvable.ConstrainIdempotent | rm_abm/evolvable.py:38-45 | constraining twice is constraining once |
| Evolvable.Mutate | rm_abm/evolvable.py:23-36 | a component whose draw does not fire is unchanged; one that fires moves by plus or minus the mutation size, as its sign draw says |
| Evolvable.NewVector | rm_abm/evolvable.py:7-18 | the new vector keeps size and frequency, stores a vector in the unit cube of the input's length, and keeps an input already in the cube unchanged |
| Evolvable.Jump | rm_abm/evolvable.py:27-35 | a component that does not fire moves by nothing; one that fires moves by exactly the mutation size, upward when the sign draw and the size agree in sign |
| Evolvable.SqDist | rm_abm/evolvable.py:82 | the squared Euclidean distance is never negative |
| Evolvable.StrictlyAbove | rm_abm/evolvable.py:85 | a point strictly above another in every component differs from it and lies at positive distance; in no dimensions it holds vacuously |
| Evolvable.SqDistZero | rm_abm/evolvable.py:82 | a squared distance of zero means the two points are equal |
| Evolvable.SqDistSelf | rm_abm/evolvable.py:82 | a point is at squared distance zero from itself |
| Evolvable.Nearest | rm_abm/evolvable.py:82-83 | the chosen row of the bounding line is at least as close to the point as every row, and strictly closer than every earlier row (the first minimum) |
| Evolvable.ConstrainToLine | rm_abm/evolvable.py:72-91 | after clamping, a point strictly above its nearest line point is kept; otherwise it is replaced by that nearest point |
| Evolvable.ConstrainToLineResult | rm_abm/evolvable.py:80-91 | the result is the clamped point or a line point nearest to it, and lies in the unit cube when the line does |
| Evolvable.ConstrainToLineIdempotent | rm_abm/evolvable.py:72-91 | projecting onto the bounding line twice is projecting once, when the line lies in the unit cube |
| Evolvable.ConstrainWithAttribute | rm_abm/evolvable.py:72-91 | the overriding constrain fails when the bounding line has not been assigned yet, is empty, or has rows of a width other than the vector's, with one error for each, and otherwise projects onto the line |
| Evolvable.NewConstrainedAsWritten | rm_abm/evolvable.py:63-70 | construction as written always fails with the missing-line error, because the base initializer constrains before the bounding line exists |
| Evolvable.NewConstrained | rm_abm/evolvable.py:63-70 | the corrected constructor fails exactly for an empty line or rows of the wrong width; otherwise it keeps the line, size and frequency and stores a projected vector of the input's length, in the unit cube when the line is |
| Evolvable.Copy | rm_abm/evolvable.py:47-102 | a copy keeps its kind, mutation size and frequency; a plain copy's vector stays in the unit cube; a constrained copy keeps its bounding line, and its vector stays in the unit cube when the line does; the constrained branch builds its result with the corrected constructor, because as written every constrained copy raises AttributeError |
| Evolvable.CopyWithoutMutation | rm_abm/evolvable.py:47-55 | with no mutation firing, a copy of a plain vector equals the original |
| Evolvable.CopyMovesLittle | rm_abm/evolvable.py:47-55 | each component of a plain copy is within one mutation size of the parent's, and equal where no mutation fired |
| Evolvable.CopyConstrainedProjectsOnce | rm_abm/evolvable.py:93-102 | the double projection of a constrained copy (in copy, then in the constructor) equals one projection of the mutated vector |
| IntervalTree.Slice | rm_abm/rm_abm.py:313-314 | a slice holds exactly the intervals of the tree overlapping the half-open range, and nothing for an empty range |
| IntervalTree.Data | rm_abm/rm_abm.py:306 | the data of a set of intervals is exactly the data some interval carries |
| Encounter.Window | rm_abm/rm_abm.py:302-315 | the query returns intervals of the tree only |
| Encounter.Encountered | rm_abm/rm_abm.py:302-315 | the bacteria met are exactly the data of the intervals the query returns, each carried by some interval of the tree |
| Encounter.WindowIsCircular | rm_abm/rm_abm.py:300-315 | the one- or two-slice query returns exactly the intervals overlapping the window of the given radius wrapped around 0 and 1 and clipped to [0, 1]; the intervals themselves are not wrapped |
| Encounter.OverhangNotWrapped | rm_abm/rm_abm.py:302-306 | an interval reaching past 1 is not met by a window just above 0 that its wrapped-around part overlaps |
| Encounter.MeetsAcrossZero | rm_abm/rm_abm.py:302-306 | a phage just above 0 meets a bacterium just below 1 |
| Encounter.MeetsAcrossOne | rm_abm/rm_abm.py:307-311 | a phage just below 1 meets a bacterium just above 0 |
| Encounter.EmptyWindow | rm_abm/rm_abm.py:312-315 | with encounter width zero a phage meets no bacterium |
| RmAbm.Bernoulli | rm_abm/rm_abm.py:30-32 | a draw in [0, 1) never succeeds with probability 0 or below and always succeeds with probability 1 or above |
| RmAbm.Choice01 | rm_abm/rm_abm.py:161-167 | the weighted choice is 0 or 1, and is always 0 for weight 0 and always 1 for weight 1 |
| RmAbm.Phage.constructor | rm_abm/rm_abm.py:261-278 | a phage holds the given id, genotype, methylation, inactivation count, affinity, parent and last host, and is not dead |
| RmAbm.Bacterium.constructor | rm_abm/rm_abm.py:339-349 | a bacterium holds the given id, genotype, methylation and degradation probability, with no phage and no established infection |
| RmAbm.NewPhage | rm_abm/rm_abm.py:279-281 | creating a phage fails exactly for id 0 |
| RmAbm.NewBacterium | rm_abm/rm_abm.py:350-351 | creating a bacterium fails exactly for id 0 |
| RmAbm.Bacterium.MaybeDegrade | rm_abm/rm_abm.py:407-419 | an established infection or a same-methylation phage is never degraded; a foreign phage is degraded exactly when the draw falls below the degradation probability, and otherwise becomes established |
| RmAbm.ByGenotype | rm_abm/rm_abm.py:12-19 | the filter accepts an agent exactly when its genotype is g |
| RmAbm.ByMethylation | rm_abm/rm_abm.py:21-28 | the filter accepts an agent exactly when its methylation is m |
| RmAbm.IndexOfFirst | rm_abm/rm_abm.py:34-39 | the result is the position of an element satisfying the predicate with none before it, and there is no result exactly when no element satisfies it |
| RmAbm.AffinityRow | rm_abm/rm_abm.py:156-157 | row g of the symmetric founder matrix has two entries summing to 1, with 1 - off_diagonal at position g |
| RmAbm.InheritedMethylation | rm_abm/rm_abm.py:361-401 | mode -1 passes on the parent's methylation, mode -2 a coin flip, and any other mode the host's methylation when the inheritance trial succeeds and none otherwise |
| RmAbm.Model.BreedCount | rm_abm/rm_abm.py:126-127 | the breed count is the number of scheduled agents of that breed |
| RmAbm.Model.Matching | rm_abm/rm_abm.py:41-48 | an id is selected exactly when it is a live agent of the breed that the filter accepts |
| RmAbm.Model.FilteredCount | rm_abm/rm_abm.py:41-48 | the filtered count is the number of live agents of the breed that the filter accepts, and never exceeds the breed count |
| RmAbm.Model.FilteredCountSplit | rm_abm/rm_abm.py:41-48 | the agents a filter accepts and those it rejects add up to the breed count |
| RmAbm.Model.CensusNow | rm_abm/rm_abm.py:125-130 | the model reporters give the live phage and bacteria counts, with the methylation-0 counts bounded by them |
| RmAbm.Model.CensusCounts | rm_abm/rm_abm.py:125-130 | the methylation-0 columns of the report are exactly the numbers of live bacteria and live phage of methylation 0 |
| RmAbm.Model.constructor | rm_abm/rm_abm.py:141-145 | a valid width gives time 0, an empty history, founder phage under ids 1..initial_phage and recruited bacteria under the next initial_bacteria ids, all pristine or uninfected |
| RmAbm.Model.Populate | rm_abm/rm_abm.py:141-145 | from an empty model, the phage then the bacteria are added under consecutive ids |
| RmAbm.Model.GetNextId | rm_abm/rm_abm.py:149-151 | the counter goes up by one and the new value is returned |
| RmAbm.Model.NewFounder | rm_abm/rm_abm.py:159-180 | a founder phage takes its methylation and genotype from weighted choices, the affinity row of its genotype, parent 0, and the full inactivation count |
| RmAbm.Model.AddFounder | rm_abm/rm_abm.py:159-181 | one founder joins the schedule under the next id, and nothing else in the phage map changes |
| RmAbm.Model.AddPhage | rm_abm/rm_abm.py:153-181 | initial_phage founders (none for a negative count) join under the next consecutive ids, and the earlier phage are kept |
| RmAbm.Model.NewRecruit | rm_abm/rm_abm.py:184-191 | a recruit has genotype 0 or 1 from the weighted choice, methylation equal to its genotype, that genotype's degradation probability, and no phage |
| RmAbm.Model.AddRecruit | rm_abm/rm_abm.py:184-194 | one recruit joins the schedule under the next id, and nothing else in the bacteria map changes |
| RmAbm.Model.AddBacteria | rm_abm/rm_abm.py:183-194 | num recruits (none for a negative num) join under the next consecutive ids, and the earlier bacteria are kept |
| RmAbm.Model.AddSpikeIn | rm_abm/rm_abm.py:244-254 | spike-in i joins under id -10 i with genotype 0, the given methylation, parent -1 and the shared affinity |
| RmAbm.Model.AddSpikeIns | rm_abm/rm_abm.py:240-254 | burst_size - 1 spike-in phage join under ids -10, -20, ..., and the existing phage are kept |
| RmAbm.NewModel | rm_abm/rm_abm.py:120-194 | building a model fails exactly when the encounter width lies outside [0, 1]; otherwise the model holds the initial populations: phage ids 1 to initial_phage as pristine founders with parent 0 and the genotype, methylation and affinity row their draws give, the next initial_bacteria ids as uninfected bacteria, and the id counter after them |
| RmAbm.NewSpikeIn | rm_abm/rm_abm.py:228-254 | a spike-in model fails exactly as the base model does; otherwise it keeps the base founders and bacteria and adds burst_size - 1 pristine spike-in phage, whose ids are the negative multiples of 10 down to -10 * (burst_size - 1), with genotype 0, parent -1, the given methylation and the affinity vector (affinity_0, 1 - affinity_0) |
| RmAbm.Placement | rm_abm/rm_abm.py:199-202 | the tree holds exactly one interval per bacterium, starting at its position draw and one agent width long |
| RmAbm.Model.RebuildTree | rm_abm/rm_abm.py:199-202 | the tree is replaced by the placement of the live bacteria for this step |
| RmAbm.Model.Inactivate | rm_abm/rm_abm.py:288-296 | the counter goes down by one, and the phage leaves the schedule exactly when the counter is negative or it is dead |
| RmAbm.Model.Met | rm_abm/rm_abm.py:300-315 | the bacteria met are live bacteria when the tree covers the live bacteria |
| RmAbm.Model.Trials | rm_abm/rm_abm.py:318-326 | one trial per bacterium in shuffled order, succeeding exactly when its draw falls below the phage's affinity for that bacterium's genotype |
| RmAbm.Model.Target | rm_abm/rm_abm.py:316-329 | the target is the first met bacterium, in the shuffled order, whose trial succeeds, and there is none exactly when no met bacterium's trial succeeds |
| RmAbm.Model.Infect | rm_abm/rm_abm.py:298-334 | the phage becomes dead exactly when it has a target; the target takes the phage only if it had none; no other bacterium changes, including any bacterium object no longer in the model |
| RmAbm.Model.PhageStep | rm_abm/rm_abm.py:283-286 | an inactivated phage leaves the schedule and does not infect; otherwise it infects as Infect states |
| RmAbm.Model.NewOffspring | rm_abm/rm_abm.py:363-400 | an offspring has the parent's genotype and id as parent, the inherited methylation, the mutated affinity copy, the host's genotype as last host, and the full inactivation count |
| RmAbm.Model.AddOffspring | rm_abm/rm_abm.py:363-377 | one offspring joins the schedule under the next id, and nothing else in the phage map changes |
| RmAbm.Model.Burst | rm_abm/rm_abm.py:361-401 | burst_size offspring (none for a negative size) join under the next consecutive ids, and the earlier phage are kept |
| RmAbm.Model.Lyse | rm_abm/rm_abm.py:359-404 | the lysed cell leaves the schedule and releases a burst of offspring of its phage |
| RmAbm.Model.BacteriumStep | rm_abm/rm_abm.py:353-404 | an uninfected cell does nothing; a degraded phage is cleared; otherwise the infection may become established and the cell lyses exactly on its latency draw, releasing a burst |
| RmAbm.Model.PhagePass | rm_abm/rm_abm.py:203 | the phage pass only removes phage from the schedule |
| RmAbm.Model.BacteriaPass | rm_abm/rm_abm.py:203 | the bacteria pass removes the lysed cells, and each lysis adds exactly burst_size phage under fresh consecutive ids |
| RmAbm.Model.ScheduleStep | rm_abm/rm_abm.py:203 | the scheduler's step advances the clock by one and combines the two passes' changes to both populations |
| RmAbm.Model.Step | rm_abm/rm_abm.py:196-208 | a step records the census taken before it, places the bacteria, runs the scheduler, and recruits bacteria_per_step new bacteria under the next ids |
| RmAbm.Model.RunModel | rm_abm/rm_abm.py:210-225 | running step_count steps advances the clock by that many, appends one census per step, and starts with the census of the current state |
| Helpers.ToFloat | rm_abm/helper_functions.py:122 | float of an int, bool or float keeps its numeric value |
| Helpers.MakeIterable | rm_abm/helper_functions.py:129-136 | a list is returned as it is, anything else (a string included) as a one-element list |
| Helpers.MakeIterableIdempotent | rm_abm/helper_functions.py:129-136 | making an iterable twice is making it once |
| Helpers.MakeListFloat | rm_abm/helper_functions.py:116-126 | a list of numbers with at least one float becomes the same numbers, all as floats; anything else is returned unchanged |
| Helpers.MakeListFloatIdempotent | rm_abm/helper_functions.py:116-126 | converting twice is converting once |
| Helpers.Product | rm_abm/helper_functions.py:147-148 | the product has one entry per combination (the product of the range sizes), each with one element per range |
| Helpers.ProductAt | rm_abm/helper_functions.py:147-148 | the combination choosing position idx[k] in each range k sits at its mixed-radix rank, last range fastest |
| Helpers.ProductCovers | rm_abm/helper_functions.py:147-148 | every entry of the product is some combination of one element per range |
| Helpers.RankOrdered | rm_abm/helper_functions.py:147-148 | combinations appear in dictionary order of their positions |
| Helpers.RankInjective | rm_abm/helper_functions.py:147-148 | distinct combinations sit at distinct positions |
| Helpers.Ranges | rm_abm/helper_functions.py:143-146 | each parameter's range is its value made iterable |
| Helpers.Zip | rm_abm/helper_functions.py:147 | the dictionary's keys are exactly the parameter names |
| Helpers.ZipAt | rm_abm/helper_functions.py:147 | with distinct names, each name maps to the value at its position |
| Helpers.UnpackParams | rm_abm/helper_functions.py:138-148 | there is one keyword dictionary per combination, each keyed by exactly the parameter names |
| Helpers.UnpackParamsInRange | rm_abm/helper_functions.py:143-148 | every dictionary gives each parameter a value from its range |
| Helpers.UnpackParamsAt | rm_abm/helper_functions.py:143-148 | the dictionary at the rank of a combination gives each parameter that combination's value |
| Helpers.GetParent | rm_abm/helper_functions.py:33-38 | a phage reports its parent and a bacterium reports none |
| Helpers.GetInfectedId | rm_abm/helper_functions.py:40-46 | only an infected bacterium reports an id, the id of its phage |
| Helpers.PyIndex | rm_abm/helper_functions.py:17 | indexing succeeds exactly for -len <= i < len, and negative positions count from the end |
| Helpers.AffinityReading | rm_abm/helper_functions.py:17 | the reading fails exactly when the genotype is not a valid index, and is otherwise that component of the vector |
| Helpers.GetAffinity | rm_abm/helper_functions.py:10-21 | a phage reports its own affinity for the genotype; the reading is NaN exactly for an uninfected bacterium |
| Helpers.InfectedReportsItsPhage | rm_abm/helper_functions.py:15-20 | an infected bacterium reports its phage's affinity and id, and neither it has a parent nor its phage an infected id |
| Helpers.AffinityOfGenotype | rm_abm/helper_functions.py:17 | for a two-component vector and genotype 0 or 1 the reading is that component |
| Helpers.Children | rm_abm/helper_functions.py:157 | the selected rows are exactly the rows whose parent is listed |
| Helpers.AgentIds | rm_abm/helper_functions.py:159 | the ids of the rows, in order |
| Helpers.ListOf | rm_abm/helper_functions.py:156 | the list holds exactly the elements of the set |
| Helpers.GetDescendents | rm_abm/helper_functions.py:152-162 | fails exactly when the start is neither an int nor a set; otherwise returns the least set that contains the start ids and every child of its members |

## Left out

- Randomness: numpy and `random` draws are oracle inputs. The model states
  what follows from any draws, not the distributions.
- NumPy's ValueError for a probability outside [0, 1] is not modelled. This
  covers the weighted choices, the Bernoulli trials, and an inheritance
  probability outside that range. A draw is compared with the probability
  as given.
- The scheduler's own source is not part of this model.
  - `RandomActivationByBreed` is modelled as a phage pass, then a bacteria
    pass, then a tick of the clock.
  - The passes cover the agents scheduled when each pass starts, in the
    oracle's order.
  - The breed order is the order in which the breeds were first added. It
    is phage then bacteria whenever `initial_phage` is positive; the other
    order is not modelled.
  - The scheduler's RuntimeError for a dictionary that changes size during
    a pass is not modelled.
- `DataCollector`'s agent reporters are not modelled; only the model
  reporters (the census) are. `verbose` printing is not modelled.
- The interval tree stores bacterium ids, not the bacterium objects. It is
  rebuilt before the phage pass, which removes no bacteria, so while phage
  infect it covers exactly the live bacteria. Lysed bacteria stay in the
  tree during the bacteria pass, which does not read it.
- The epi_inheritance mode is a number. The unreachable ValueError branch
  at rm_abm/rm_abm.py:402-403 cannot be taken by any number and is not
  modelled.
- Spike-in phage share one affinity object in the source. Affinity vectors
  are values here, which is equivalent because no operation mutates one in
  place.
- RmAbm.Model.PhagePass: states only that phage leave the schedule. Each
  phage's countdown and infection are stated by PhageStep, not gathered
  over the whole pass.
- RmAbm.Model.BacteriaPass: states the counts, the removed cells and the
  id range of the new phage. What each offspring is, is stated by
  BacteriumStep and Burst, not gathered over the pass.
- RmAbm.Model.ScheduleStep: inherits the two passes' weaker contracts.
- RmAbm.Model.Step: inherits the two passes' weaker contracts.
- RmAbm.Model.RunModel: states the clock and the history's length and
  first entry, not the state after each step.
- RmAbm.Model.Met: states only that the bacteria met are live. The geometry
  of the window is stated by Encounter.WindowIsCircular.
- Helpers.MakeIterable: only lists count as non-string iterables. Tuples,
  dicts, sets, ranges and numpy arrays are not modelled.
- Helpers.MakeListFloat: only lists count as non-string iterables. Numbers
  are ints, bools and floats; complex numbers and numpy scalars are not
  modelled.
- Helpers.GetDescendents: takes a ghost rank that witnesses that parent
  links are acyclic. The source loops forever on a cycle, and that case is
  not modelled. The order of the list built from a set is arbitrary, and
  the result is a set.
- `get_affinity` returns a closure in the source. Here it is a function of
  two arguments.
- The pandas and statistics helpers of rm_abm/helper_functions.py are not
  modelled: `avg_phage_affinity`, `get_last_step`, `get_founder`,
  `get_all_founders`, `get_population_means`, `get_manipulated_descendents`
  and `founders_analysis`. The run scripts, the analyses and the cluster
  launcher are not modelled either.
- Integers are unbounded and reals are exact. Floating-point rounding in
  the mutation, clamping and distance computations is not modelled.
- Helpers.ToFloat: keeps an int's value exactly. Python's `float()` rounds
  an int that a double cannot hold; that rounding is not modelled.
- Evolvable.Nearest: requires a non-empty bounding line whose rows have the
  vector's width. The empty and misshapen lines are answered with errors by
  Evolvable.ConstrainWithAttribute and Evolvable.NewConstrained, which call it.
- Evolvable.ConstrainToLine: requires a non-empty bounding line whose rows
  have the vector's width, for the same reason.
- Evolvable.ConstrainWithAttribute: treats every row width other than the
  vector's as an error. NumPy would broadcast a row or vector of width 1
  instead of raising; that case is not modelled.
- Evolvable.NewConstrained: treats row widths as ConstrainWithAttribute
  does.

## Findings

| source | as written | input that shows it | evidently intended | confidence | as-written member | corrected member |
|---|---|---|---|---|---|---|
| rm_abm/evolvable.py:63-70 | the constrained constructor calls the base initializer, which calls the overriding constrain, which reads the bounding line before the constructor assigns it; construction raises AttributeError, and so does every constrained copy (rm_abm/evolvable.py:99-102), which goes through the constructor | any vector with any bounding line | assign the bounding line first, so the initial vector is projected onto it | not executed | Evolvable.NewConstrainedAsWritten | Evolvable.NewConstrained |
