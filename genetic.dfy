/** GeneticOptimizer: evolves a population of room-order chromosomes by tournament
    selection, order crossover and swap mutation, keeping the fittest chromosome
    seen so far, and decodes it into an assignment. Fitness is the quick
    simulation's total time plus a load penalty, or inf when the simulation raises;
    lower is better. */
module Genetic {
  import opened Common
  import opened Facility
  import opened Responders
  import opened Sweep
  import opened Greedy
  import opened OrderCrossover
  import opened Chromosomes
  import opened Dicts
  import Networks
  import CoarseGraph
  import Outcomes
  import Simulation

  /** The stand-in for Python's random module: one stream of draws for each call,
      named by the generation, the tournament slot or pair, and the child. */
  datatype Coins = Coins(
    shuffles: nat -> Draws,                  // random.shuffle of chromosome k of the first population
    contestants: (nat, nat) -> Draws,        // random.sample for tournament slot s of generation g
    crossRoll: (nat, nat) -> real,           // random.random() before pair p's crossover
    cuts: (nat, nat) -> (nat, nat),          // the draws of that crossover's two randint calls
    mutationRoll: (nat, nat, nat) -> real,   // random.random() before mutating child c (0 or 1) of pair p
    swaps: (nat, nat, nat) -> Draws)         // random.sample of that mutation

  /** The optimizer's settings. `quick` is the quick simulation of a decoded
      assignment followed by the load penalty (QuickFitness for the optimizer's own
      building and team), or Err when the simulation raises. */
  datatype Settings = Settings(
    roomIds: seq<string>, nResponders: nat, populationSize: nat,
    mutationRate: real, crossoverRate: real, quick: Assignment -> Result<real>)

  /** The fields the generation loop updates. */
  datatype Tracker = Tracker(best: Option<seq<int>>, bestFitness: Ext, history: seq<Ext>)

  /** Every chromosome has one gene per room. */
  predicate Sized(pop: seq<seq<int>>, len: nat) {
    forall i | 0 <= i < |pop| :: |pop[i]| == len
  }

  ghost predicate AllPermutations(pop: seq<seq<int>>, nRooms: nat) {
    forall i | 0 <= i < |pop| :: IsPermutation(pop[i], nRooms)
  }

  // ---------------------------------------------------------------------------
  // The quick simulation

  /** The dictionary {responder id: rooms} of a decoded assignment: list k belongs to
      responder k + 1. */
  function IdMap(a: Assignment): (m: map<int, seq<string>>)
    ensures forall id | id in m :: 1 <= id <= |a|
    ensures forall id | 1 <= id <= |a| :: id in m && m[id] == a[id - 1]
  {
    if a == [] then map[]
    else IdMap(a[..|a| - 1])[|a| := a[|a| - 1]]
  }

  /** The responders' total times in the results' responder paths. */
  function ReportedTimes(ps: seq<Outcomes.Report>): (ts: seq<real>)
    ensures |ts| == |ps| && forall i | 0 <= i < |ps| :: ts[i] == ps[i].totalTime
  {
    seq(|ps|, i requires 0 <= i < |ps| => ps[i].totalTime)
  }

  /** The part of _evaluate_fitness after decoding: Simulator.run_quick on the coarse
      graph g, the team and the rooms, then the load penalty of twice the standard
      deviation of the responders' times; Err when the run raises. */
  function QuickFitness(g: CoarseGraph.BuildingGraph, rs: seq<Responder>, rooms: Dict<Room>,
                        std: seq<real> -> real, a: Assignment): Result<real>
    requires rooms.Valid()
  {
    match Simulation.SweepOutcome(g, rs, IdMap(a), rooms, std)
    case Err(e) => Err(e)
    case Ok(res) => Ok(res.totalTime + 2.0 * std(ReportedTimes(res.responderPaths)))
  }

  // ---------------------------------------------------------------------------
  // Fitness

  /** _evaluate_fitness: decoding errors propagate, and any exception of the
      simulation gives inf. */
  function Fitness(cfg: Settings, c: seq<int>): (r: Result<Ext>)
    ensures r.Err? <==> Decode(cfg.roomIds, c, cfg.nResponders).Err?
    ensures r.Err? ==> r.error == Decode(cfg.roomIds, c, cfg.nResponders).error
    ensures r.Ok? ==> (r.value == Inf <==> cfg.quick(Decode(cfg.roomIds, c, cfg.nResponders).value).Err?)
  {
    match Decode(cfg.roomIds, c, cfg.nResponders)
    case Err(e) => Err(e)
    case Ok(a) =>
      match cfg.quick(a)
      case Ok(t) => Ok(Fin(t))
      case Err(_) => Ok(Inf)
  }

  /** The fitness of every chromosome of the population, in order, stopping at the first
      error. */
  function Scores(cfg: Settings, pop: seq<seq<int>>): (r: Result<seq<Ext>>)
    ensures r.Ok? ==> |r.value| == |pop| && forall i | 0 <= i < |pop| :: Fitness(cfg, pop[i]) == Ok(r.value[i])
    decreases |pop|
  {
    if pop == [] then Ok([])
    else
      var init := pop[..|pop| - 1];
      assert forall i | 0 <= i < |init| :: init[i] == pop[i];
      match Scores(cfg, init)
      case Err(e) => Err(e)
      case Ok(s) =>
        match Fitness(cfg, pop[|pop| - 1])
        case Err(e) => Err(e)
        case Ok(f) => Ok(s + [f])
  }

  /** What a chromosome's fitness means when `quick` is the quick simulation: decoding
      errors propagate; otherwise the chromosome scores inf exactly when the simulation of
      its assignment raises, and else the run's total time, the time of its slowest
      responder, plus a load penalty that is never negative when the standard deviation
      is not. */
  lemma {:induction false} FitnessSimulated(cfg: Settings, c: seq<int>, g: CoarseGraph.BuildingGraph,
                                            rs: seq<Responder>, rooms: Dict<Room>, std: seq<real> -> real)
    requires rooms.Valid() && forall a :: cfg.quick(a) == QuickFitness(g, rs, rooms, std, a)
    requires forall ts :: std(ts) >= 0.0
    ensures var d, f := Decode(cfg.roomIds, c, cfg.nResponders), Fitness(cfg, c);
      && (d.Err? ==> f == Err(d.error))
      && (d.Ok? ==>
            var out := Simulation.SweepOutcome(g, rs, IdMap(d.value), rooms, std);
            var run := Outcomes.RunTeam(Simulation.SweepExec(g), rs, IdMap(d.value), Outcomes.ResetRooms(rooms));
            && (f == Ok(Inf) <==> out.Err?)
            && (out.Ok? ==>
                  && run.Ok? && Max(Outcomes.Times(run.value.0)) == Ok(out.value.totalTime)
                  && f.Ok? && f.value.Fin? && f.value.v >= out.value.totalTime
                  && f.value.v == out.value.totalTime + 2.0 * std(ReportedTimes(out.value.responderPaths))))
  {
    var d := Decode(cfg.roomIds, c, cfg.nResponders);
    if d.Ok? {
      var out := Simulation.SweepOutcome(g, rs, IdMap(d.value), rooms, std);
      assert cfg.quick(d.value) == QuickFitness(g, rs, rooms, std, d.value);
      if out.Ok? {
        assert std(ReportedTimes(out.value.responderPaths)) >= 0.0;
      }
    }
  }

  method EvaluateFitness(cfg: Settings, chromosome: seq<int>) returns (r: Result<Ext>)
    ensures r == Fitness(cfg, chromosome)
  {
    var assignment := ChromosomeToAssignment(cfg.roomIds, chromosome, cfg.nResponders);
    if assignment.Err? {
      return Err(assignment.error);
    }
    var results := cfg.quick(assignment.value);
    if results.Err? {
      return Ok(Inf);
    }
    r := Ok(Fin(results.value));
  }

  method ScorePopulation(cfg: Settings, population: seq<seq<int>>) returns (r: Result<seq<Ext>>)
    ensures r == Scores(cfg, population)
  {
    var scores: seq<Ext> := [];
    var i := 0;
    assert population[..0] == [];
    while i < |population|
      invariant 0 <= i <= |population|
      invariant Scores(cfg, population[..i]) == Ok(scores)
    {
      var f := EvaluateFitness(cfg, population[i]);
      assert population[..i + 1][..i] == population[..i] && population[..i + 1][i] == population[i];
      if f.Err? {
        ScoresPrefix(cfg, population, i + 1);
        return Err(f.error);
      }
      scores := scores + [f.value];
      i := i + 1;
    }
    assert population[..i] == population;
    r := Ok(scores);
  }

  /** A failing prefix fails the whole comprehension. */
  lemma {:induction false} ScoresPrefix(cfg: Settings, pop: seq<seq<int>>, i: nat)
    requires i <= |pop| && Scores(cfg, pop[..i]).Err?
    ensures Scores(cfg, pop) == Scores(cfg, pop[..i])
    decreases |pop| - i
  {
    if i < |pop| {
      assert pop[..i + 1][..i] == pop[..i];
      ScoresPrefix(cfg, pop, i + 1);
    } else {
      assert pop[..i] == pop;
    }
  }

  /** The comprehension succeeds when every chromosome's fitness does. */
  lemma {:induction false} ScoresTotal(cfg: Settings, pop: seq<seq<int>>)
    requires forall i | 0 <= i < |pop| :: Fitness(cfg, pop[i]).Ok?
    ensures Scores(cfg, pop).Ok?
    decreases |pop|
  {
    if pop != [] {
      var init := pop[..|pop| - 1];
      assert forall i | 0 <= i < |init| :: init[i] == pop[i];
      ScoresTotal(cfg, init);
    }
  }

  // ---------------------------------------------------------------------------
  // Tracking the best

  /** The first index of a least value. */
  function ArgMinExt(s: seq<Ext>): (i: nat)
    requires |s| > 0
    ensures i < |s|
    ensures forall k | 0 <= k < |s| :: !s[k].Lt(s[i])
    ensures forall k | 0 <= k < i :: s[i].Lt(s[k])
    decreases |s|
  {
    if |s| == 1 then 0
    else
      var init := s[..|s| - 1];
      assert forall k | 0 <= k < |init| :: init[k] == s[k];
      var j := ArgMinExt(init);
      if s[|s| - 1].Lt(s[j]) then |s| - 1 else j
  }

  /** Best-fitness tracking: a first fittest chromosome strictly better than the best so far replaces it, and the best fitness is appended to the history. */
  function Track(t: Tracker, pop: seq<seq<int>>, scores: seq<Ext>): (t': Tracker)
    requires |scores| == |pop| > 0
    ensures t'.history == t.history + [t'.bestFitness]
    ensures !t.bestFitness.Lt(t'.bestFitness)
    ensures forall i | 0 <= i < |scores| :: !scores[i].Lt(t'.bestFitness)
    ensures t'.best == t.best || exists i | 0 <= i < |pop| :: t'.best == Some(pop[i]) && t'.bestFitness == scores[i]
  {
    var i := ArgMinExt(scores);
    if scores[i].Lt(t.bestFitness) then Tracker(Some(pop[i]), scores[i], t.history + [scores[i]])
    else Tracker(t.best, t.bestFitness, t.history + [t.bestFitness])
  }

  /** The history never rises. */
  ghost predicate Descending(h: seq<Ext>) {
    forall i, j | 0 <= i < j < |h| :: !h[i].Lt(h[j])
  }

  /** What the loop keeps true of its fields: the history never rises and ends at the
      best fitness, there is a best chromosome exactly when the best fitness is
      finite, and the best fitness is that chromosome's fitness. */
  ghost predicate Sound(cfg: Settings, t: Tracker) {
    && Descending(t.history)
    && (forall i | 0 <= i < |t.history| :: !t.history[i].Lt(t.bestFitness))
    && (t.history != [] ==> t.history[|t.history| - 1] == t.bestFitness)
    && (t.best.None? <==> t.bestFitness == Inf)
    && (t.best.Some? ==> Fitness(cfg, t.best.value) == Ok(t.bestFitness))
  }

  /** A fresh optimizer: no best, fitness inf, no history. */
  lemma {:induction false} FreshSound(cfg: Settings)
    ensures Sound(cfg, Tracker(None, Inf, []))
  {
  }

  /** Tracking one scored generation keeps the fields sound, appends exactly one
      entry, and never raises the best fitness. */
  lemma {:induction false} TrackSound(cfg: Settings, t: Tracker, pop: seq<seq<int>>, scores: seq<Ext>)
    requires Sound(cfg, t) && |pop| > 0 && Scores(cfg, pop) == Ok(scores)
    ensures Sound(cfg, Track(t, pop, scores))
  {
    var t' := Track(t, pop, scores);
    var h := t'.history;
    forall i, j | 0 <= i < j < |h| ensures !h[i].Lt(h[j]) {
      if j == |h| - 1 {
        assert !t.history[i].Lt(t.bestFitness) || i == |t.history|;
      }
    }
  }

  // ---------------------------------------------------------------------------
  // Selection

  /** One tournament: three distinct contestants drawn by random.sample, and the
      first of the fittest among them wins. */
  function Tournament(scores: seq<Ext>, draws: Draws): (w: int)
    requires |scores| >= 3
    ensures 0 <= w < |scores|
  {
    var cs := Sample(|scores|, 3, draws).value;
    SampleDistinct(|scores|, 3, draws);
    cs[ArgMin3(scores[cs[0]], scores[cs[1]], scores[cs[2]])]
  }

  /** The first position of a least value among three. */
  function ArgMin3(a: Ext, b: Ext, c: Ext): (i: nat)
    ensures i < 3
  {
    if b.Lt(a) then (if c.Lt(b) then 2 else 1) else (if c.Lt(a) then 2 else 0)
  }

  /** ArgMin3 is ArgMinExt on a list of three values. */
  lemma {:induction false} ArgMin3IsArgMin(a: Ext, b: Ext, c: Ext)
    ensures ArgMin3(a, b, c) == ArgMinExt([a, b, c])
  {
    assert [a, b, c][..2] == [a, b] && [a, b][..1] == [a];
  }

  /** The winner of tournament s of a generation, for each s. */
  function WinnerOf(scores: seq<Ext>, gen: nat, coins: Coins): (w: nat -> nat)
    requires |scores| >= 3
    ensures forall s: nat :: w(s) < |scores|
  {
    var w := (s: nat) => Tournament(scores, coins.contestants(gen, s)) as nat;
    assert forall s: nat :: w(s) == Tournament(scores, coins.contestants(gen, s));
    w
  }

  /** The chromosomes of the first k winners. */
  function Winners(pop: seq<seq<int>>, winner: nat -> nat, k: nat): (w: seq<seq<int>>)
    requires k <= |pop| && (k > 0 ==> forall s: nat :: winner(s) < |pop|)
    ensures |w| == k
    decreases k
  {
    if k == 0 then [] else Winners(pop, winner, k - 1) + [pop[winner(k - 1)]]
  }

  /** _selection: one tournament winner per member of the population; ValueError
      for a population of one or two, too small for a tournament of three. */
  function Selected(pop: seq<seq<int>>, scores: seq<Ext>, gen: nat, coins: Coins): (r: Result<seq<seq<int>>>)
    requires |scores| == |pop|
    ensures r.Ok? <==> !(0 < |pop| < 3)
    ensures r.Err? ==> r.error == ValueError
    ensures r.Ok? ==> |r.value| == |pop|
  {
    if pop == [] then Ok([])
    else if |pop| < 3 then Err(ValueError)
    else Ok(Winners(pop, WinnerOf(scores, gen, coins), |pop|))
  }

  /** The loop of _selection, given the winner of each tournament. */
  method Tournaments(population: seq<seq<int>>, fitnessScores: seq<Ext>, gen: nat, coins: Coins)
    returns (selected: seq<seq<int>>)
    requires |fitnessScores| == |population| >= 3
    ensures selected == Winners(population, WinnerOf(fitnessScores, gen, coins), |population|)
  {
    ghost var winner := WinnerOf(fitnessScores, gen, coins);
    selected := [];
    var s := 0;
    while s < |population|
      invariant 0 <= s <= |population|
      invariant selected == Winners(population, winner, s)
    {
      var winnerIdx := RunTournament(fitnessScores, gen, coins, s);
      assert winnerIdx == winner(s) < |population|;
      assert Winners(population, winner, s + 1) == Winners(population, winner, s) + [population[winner(s)]];
      selected := selected + [population[winnerIdx]];
      s := s + 1;
    }
  }

  /** One tournament: three distinct contestants drawn from the population and the first of the
      fittest contestants. */
  method RunTournament(fitnessScores: seq<Ext>, gen: nat, coins: Coins, s: nat) returns (winnerIdx: nat)
    requires |fitnessScores| >= 3
    ensures winnerIdx == WinnerOf(fitnessScores, gen, coins)(s)
  {
    var draws := coins.contestants(gen, s);
    var contestantsIdx := Sample(|fitnessScores|, 3, draws).value;
    SampleDistinct(|fitnessScores|, 3, draws);
    var contestantsFitness := [fitnessScores[contestantsIdx[0]], fitnessScores[contestantsIdx[1]], fitnessScores[contestantsIdx[2]]];
    ArgMin3IsArgMin(contestantsFitness[0], contestantsFitness[1], contestantsFitness[2]);
    assert contestantsFitness == [contestantsFitness[0], contestantsFitness[1], contestantsFitness[2]];
    winnerIdx := contestantsIdx[ArgMinExt(contestantsFitness)];
  }

  method Selection(population: seq<seq<int>>, fitnessScores: seq<Ext>, gen: nat, coins: Coins)
    returns (r: Result<seq<seq<int>>>)
    requires |fitnessScores| == |population|
    ensures r == Selected(population, fitnessScores, gen, coins)
  {
    if population == [] {
      return Ok([]);
    }
    if |population| < 3 {
      // random.sample raises in the first tournament
      return Err(ValueError);
    }
    var selected := Tournaments(population, fitnessScores, gen, coins);
    r := Ok(selected);
  }

  /** The s-th selected chromosome is the winner of tournament s. */
  lemma {:induction false} WinnersAt(pop: seq<seq<int>>, winner: nat -> nat, k: nat, s: nat)
    requires s < k <= |pop| && forall s': nat :: winner(s') < |pop|
    ensures Winners(pop, winner, k)[s] == pop[winner(s)]
    decreases k
  {
    if s < k - 1 {
      WinnersAt(pop, winner, k - 1, s);
    }
  }

  /** Whatever holds of every member of the population holds of every selected
      chromosome, since each is a member. */
  lemma {:induction false} SelectedAll(pop: seq<seq<int>>, scores: seq<Ext>, gen: nat, coins: Coins, P: seq<int> -> bool)
    requires |scores| == |pop| && forall i | 0 <= i < |pop| :: P(pop[i])
    ensures Selected(pop, scores, gen, coins).Ok? ==>
              forall s | 0 <= s < |pop| :: P(Selected(pop, scores, gen, coins).value[s])
  {
    if |pop| >= 3 {
      var winner := WinnerOf(scores, gen, coins);
      forall s | 0 <= s < |pop| ensures P(Selected(pop, scores, gen, coins).value[s]) {
        WinnersAt(pop, winner, |pop|, s);
      }
    }
  }

  /** Each selected chromosome is the fittest (the first of them on a tie) of three
      distinct members of the population. */
  lemma {:induction false} SelectedWinner(pop: seq<seq<int>>, scores: seq<Ext>, gen: nat, coins: Coins, s: nat)
    requires |scores| == |pop| >= 3 && s < |pop|
    ensures var cs := Sample(|pop|, 3, coins.contestants(gen, s)).value;
      && |cs| == 3 && cs[0] != cs[1] && cs[0] != cs[2] && cs[1] != cs[2]
      && (forall j | 0 <= j < 3 :: 0 <= cs[j] < |pop|)
      && exists j | 0 <= j < 3 ::
           && Selected(pop, scores, gen, coins).value[s] == pop[cs[j]]
           && forall j' | 0 <= j' < 3 :: !scores[cs[j']].Lt(scores[cs[j]])
  {
    var draws := coins.contestants(gen, s);
    SampleDistinct(|pop|, 3, draws);
    var cs := Sample(|pop|, 3, draws).value;
    var fs := [scores[cs[0]], scores[cs[1]], scores[cs[2]]];
    var j := ArgMinExt(fs);
    ArgMin3IsArgMin(fs[0], fs[1], fs[2]);
    assert fs == [fs[0], fs[1], fs[2]];
    WinnersAt(pop, WinnerOf(scores, gen, coins), |pop|, s);
    assert Selected(pop, scores, gen, coins).value[s] == pop[cs[j]];
    assert forall j' | 0 <= j' < 3 :: !scores[cs[j']].Lt(scores[cs[j]]) by {
      assert forall j' | 0 <= j' < 3 :: fs[j'] == scores[cs[j']];
    }
  }

  // ---------------------------------------------------------------------------
  // Breeding

  /** The number of pairs the breeding loop visits, stepping by two over the selected chromosomes. */
  function Pairs(m: nat): nat {
    (m + 1) / 2
  }

  /** Pair p: selected[2p] and selected[2p + 1], or selected[0] for an odd last one. */
  function Parents(sel: seq<seq<int>>, p: nat): (seq<int>, seq<int>)
    requires 2 * p < |sel|
  {
    (sel[2 * p], if 2 * p + 1 < |sel| then sel[2 * p + 1] else sel[0])
  }

  /** The child mutated when the roll falls below the mutation rate, unchanged otherwise. */
  function MaybeMutated(rate: real, c: seq<int>, roll: real, draws: Draws): (r: Result<seq<int>>)
    ensures r.Ok? ==> |r.value| == |c| && multiset(r.value) == multiset(c)
  {
    if roll < rate then Mutation(c, draws) else Ok(c)
  }

  /** The two children of a pair: crossed over when the roll falls below the crossover
      rate, copies of the parents otherwise. */
  function Crossed(cfg: Settings, parents: (seq<int>, seq<int>), roll: real, cut: (nat, nat)): (r: Result<(seq<int>, seq<int>)>)
    requires |parents.0| == |parents.1|
    ensures r.Ok? ==> |r.value.0| == |r.value.1| == |parents.0|
  {
    if roll < cfg.crossoverRate then CrossoverOf(parents.0, parents.1, cut) else Ok(parents)
  }

  /** The two children of pair p: crossed over when the roll is below the crossover
      rate, and each mutated when its roll is below the mutation rate. */
  function Children(cfg: Settings, sel: seq<seq<int>>, gen: nat, p: nat, coins: Coins): (r: Result<(seq<int>, seq<int>)>)
    requires 2 * p < |sel| && Sized(sel, |cfg.roomIds|)
    ensures r.Ok? ==> |r.value.0| == |r.value.1| == |cfg.roomIds|
  {
    var crossed := Crossed(cfg, Parents(sel, p), coins.crossRoll(gen, p), coins.cuts(gen, p));
    if crossed.Err? then Err(crossed.error)
    else
      var m1 := MaybeMutated(cfg.mutationRate, crossed.value.0, coins.mutationRoll(gen, p, 0), coins.swaps(gen, p, 0));
      var m2 := MaybeMutated(cfg.mutationRate, crossed.value.1, coins.mutationRoll(gen, p, 1), coins.swaps(gen, p, 1));
      if m1.Err? then Err(m1.error)
      else if m2.Err? then Err(m2.error)
      else Ok((m1.value, m2.value))
  }

  /** The children of the first k pairs, in pair order. */
  function Broods(cfg: Settings, sel: seq<seq<int>>, gen: nat, coins: Coins, k: nat): (b: seq<Result<(seq<int>, seq<int>)>>)
    requires k <= Pairs(|sel|) && Sized(sel, |cfg.roomIds|)
    ensures |b| == k
    decreases k
  {
    if k == 0 then [] else Broods(cfg, sel, gen, coins, k - 1) + [Children(cfg, sel, gen, k - 1, coins)]
  }

  lemma {:induction false} BroodsAt(cfg: Settings, sel: seq<seq<int>>, gen: nat, coins: Coins, k: nat, p: nat)
    requires p < k <= Pairs(|sel|) && Sized(sel, |cfg.roomIds|)
    ensures Broods(cfg, sel, gen, coins, k)[p] == Children(cfg, sel, gen, p, coins)
    decreases k
  {
    var init := Broods(cfg, sel, gen, coins, k - 1);
    assert Broods(cfg, sel, gen, coins, k) == init + [Children(cfg, sel, gen, k - 1, coins)];
    if p < k - 1 {
      BroodsAt(cfg, sel, gen, coins, k - 1, p);
      assert (init + [Children(cfg, sel, gen, k - 1, coins)])[p] == init[p];
    }
  }

  /** The children of every pair, two after two, in pair order; the first pair that
      raises ends the loop. */
  function Gather(rs: seq<Result<(seq<int>, seq<int>)>>): (r: Result<seq<seq<int>>>)
    ensures r.Ok? ==> |r.value| == 2 * |rs|
    decreases |rs|
  {
    if rs == [] then Ok([])
    else
      var init := Gather(rs[..|rs| - 1]);
      var last := rs[|rs| - 1];
      if init.Err? then init
      else if last.Err? then Err(last.error)
      else Ok(init.value + [last.value.0, last.value.1])
  }

  /** Once a pair fails, the loop fails the same way whatever follows. */
  lemma {:induction false} GatherFails(rs: seq<Result<(seq<int>, seq<int>)>>, k: nat)
    requires k <= |rs| && Gather(rs[..k]).Err?
    ensures Gather(rs) == Gather(rs[..k])
    decreases |rs| - k
  {
    if k < |rs| {
      assert rs[..k + 1][..k] == rs[..k];
      GatherFails(rs, k + 1);
    } else {
      assert rs[..k] == rs;
    }
  }

  /** The loop succeeds exactly when every pair does, and then every gathered child is
      a child of some pair: whatever holds of all children holds of the population. */
  lemma {:induction false} GatherAll(rs: seq<Result<(seq<int>, seq<int>)>>, P: seq<int> -> bool)
    requires forall p | 0 <= p < |rs| && rs[p].Ok? :: P(rs[p].value.0) && P(rs[p].value.1)
    ensures Gather(rs).Ok? <==> forall p | 0 <= p < |rs| :: rs[p].Ok?
    ensures Gather(rs).Ok? ==> forall i | 0 <= i < |Gather(rs).value| :: P(Gather(rs).value[i])
    decreases |rs|
  {
    if rs != [] {
      var init := rs[..|rs| - 1];
      assert forall p | 0 <= p < |init| :: init[p] == rs[p];
      GatherAll(init, P);
    }
  }

  /** next_population: the pair loop over the selected chromosomes. */
  function Offspring(cfg: Settings, sel: seq<seq<int>>, gen: nat, coins: Coins): (r: Result<seq<seq<int>>>)
    requires Sized(sel, |cfg.roomIds|)
    ensures r.Ok? ==> |r.value| == 2 * Pairs(|sel|) && Sized(r.value, |cfg.roomIds|)
  {
    var b := Broods(cfg, sel, gen, coins, Pairs(|sel|));
    assert forall p | 0 <= p < |b| && b[p].Ok? :: |b[p].value.0| == |b[p].value.1| == |cfg.roomIds| by {
      forall p | 0 <= p < |b| && b[p].Ok? ensures |b[p].value.0| == |b[p].value.1| == |cfg.roomIds| {
        BroodsAt(cfg, sel, gen, coins, |b|, p);
      }
    }
    GatherAll(b, c => |c| == |cfg.roomIds|);
    Gather(b)
  }

  /** Crossed, as a statement. */
  method Cross(cfg: Settings, parent1: seq<int>, parent2: seq<int>, roll: real, cut: (nat, nat))
    returns (r: Result<(seq<int>, seq<int>)>)
    requires |parent1| == |parent2|
    ensures r == Crossed(cfg, (parent1, parent2), roll, cut)
  {
    if roll < cfg.crossoverRate {
      r := Crossover(parent1, parent2, cut);
    } else {
      r := Ok((parent1, parent2));
    }
  }

  /** The child mutated when the roll falls below the mutation rate, as a statement. */
  method MaybeMutate(rate: real, child: seq<int>, roll: real, draws: Draws) returns (r: Result<seq<int>>)
    ensures r == MaybeMutated(rate, child, roll, draws)
  {
    if roll < rate {
      r := Mutate(child, draws);
    } else {
      r := Ok(child);
    }
  }

  /** One pass of the pair loop of optimize. */
  method BreedPair(cfg: Settings, selected: seq<seq<int>>, gen: nat, p: nat, coins: Coins)
    returns (r: Result<(seq<int>, seq<int>)>)
    requires 2 * p < |selected| && Sized(selected, |cfg.roomIds|)
    ensures r == Children(cfg, selected, gen, p, coins)
  {
    var i := 2 * p;
    var parent1 := selected[i];
    var parent2 := if i + 1 < |selected| then selected[i + 1] else selected[0];
    assert (parent1, parent2) == Parents(selected, p);
    var crossed := Cross(cfg, parent1, parent2, coins.crossRoll(gen, p), coins.cuts(gen, p));
    if crossed.Err? {
      return Err(crossed.error);
    }
    var child1 := MaybeMutate(cfg.mutationRate, crossed.value.0, coins.mutationRoll(gen, p, 0), coins.swaps(gen, p, 0));
    if child1.Err? {
      return Err(child1.error);
    }
    var child2 := MaybeMutate(cfg.mutationRate, crossed.value.1, coins.mutationRoll(gen, p, 1), coins.swaps(gen, p, 1));
    if child2.Err? {
      return Err(child2.error);
    }
    r := Ok((child1.value, child2.value));
  }

  /** The pair loop of optimize. */
  method Breed(cfg: Settings, selected: seq<seq<int>>, gen: nat, coins: Coins) returns (r: Result<seq<seq<int>>>)
    requires Sized(selected, |cfg.roomIds|)
    ensures r == Offspring(cfg, selected, gen, coins)
  {
    ghost var broods := Broods(cfg, selected, gen, coins, Pairs(|selected|));
    var nextPopulation: seq<seq<int>> := [];
    var p := 0;
    assert broods[..0] == [];
    while 2 * p < |selected|
      invariant p <= |broods|
      invariant Gather(broods[..p]) == Ok(nextPopulation)
    {
      var children := BreedPair(cfg, selected, gen, p, coins);
      BroodsAt(cfg, selected, gen, coins, |broods|, p);
      assert broods[..p + 1][..p] == broods[..p] && broods[..p + 1][p] == children;
      if children.Err? {
        GatherFails(broods, p + 1);
        return Err(children.error);
      }
      nextPopulation := nextPopulation + [children.value.0, children.value.1];
      p := p + 1;
    }
    assert broods[..p] == broods;
    r := Ok(nextPopulation);
  }

  // ---------------------------------------------------------------------------
  // Generations

  /** The next generation cut down to the population size. */
  function Truncated(kids: seq<seq<int>>, size: nat): (t: seq<seq<int>>)
    ensures |t| == if size < |kids| then size else |kids|
  {
    if size < |kids| then kids[..size] else kids
  }

  /** The part of a generation of optimize after the tracking. */
  method Reproduce(cfg: Settings, population: seq<seq<int>>, fitnessScores: seq<Ext>, gen: nat, coins: Coins)
    returns (r: Result<seq<seq<int>>>)
    requires |fitnessScores| == |population| && Sized(population, |cfg.roomIds|)
    ensures r == Bred(cfg, population, fitnessScores, gen, coins)
  {
    var selected := Selection(population, fitnessScores, gen, coins);
    if selected.Err? {
      return Err(selected.error);
    }
    SelectedAll(population, fitnessScores, gen, coins, c => |c| == |cfg.roomIds|);
    var kids := Breed(cfg, selected.value, gen, coins);
    if kids.Err? {
      return Err(kids.error);
    }
    r := Ok(Truncated(kids.value, cfg.populationSize));
  }

  /** The next population from a scored one: select, breed, truncate. */
  function Bred(cfg: Settings, pop: seq<seq<int>>, scores: seq<Ext>, gen: nat, coins: Coins): (r: Result<seq<seq<int>>>)
    requires |scores| == |pop| && Sized(pop, |cfg.roomIds|)
    ensures r.Ok? ==> Sized(r.value, |cfg.roomIds|)
  {
    var sel := Selected(pop, scores, gen, coins);
    if sel.Err? then Err(sel.error)
    else
      SelectedAll(pop, scores, gen, coins, c => |c| == |cfg.roomIds|);
      var kids := Offspring(cfg, sel.value, gen, coins);
      if kids.Err? then kids
      else
        var next := Truncated(kids.value, cfg.populationSize);
        assert forall i | 0 <= i < |next| :: next[i] == kids.value[i];
        Ok(next)
  }

  /** One generation: score, track the best, select, breed, truncate. An error in
      scoring, or an empty population (np.argmin of []), leaves the fields alone;
      one in selection or breeding comes after the tracking. */
  function Generation(cfg: Settings, t: Tracker, pop: seq<seq<int>>, gen: nat, coins: Coins): (r: (Tracker, Result<seq<seq<int>>>))
    requires Sized(pop, |cfg.roomIds|)
    ensures r.1.Ok? ==> Sized(r.1.value, |cfg.roomIds|)
  {
    var scores := Scores(cfg, pop);
    if scores.Err? then (t, Err(scores.error))
    else if pop == [] then (t, Err(ValueError))
    else (Track(t, pop, scores.value), Bred(cfg, pop, scores.value, gen, coins))
  }

  /** One pass of the generation loop, as a function of the fields, the population
      and the generation number. */
  type Step = (Tracker, seq<seq<int>>, nat) -> (Tracker, Result<seq<seq<int>>>)

  /** The loop's step for these settings and draws. Every population the loop meets
      has one gene per room (FirstPopulation, Generation), so the guard only makes the
      step total. */
  function GenerationStep(cfg: Settings, coins: Coins): Step {
    (t: Tracker, pop: seq<seq<int>>, gen: nat) =>
      if Sized(pop, |cfg.roomIds|) then Generation(cfg, t, pop, gen, coins) else (t, Err(IndexError))
  }

  /** step(t, pop, gen), under a name of its own so that RunsGenerations is
      applied only where a generation is run. */
  ghost function Ran(step: Step, t: Tracker, pop: seq<seq<int>>, gen: nat): (Tracker, Result<seq<seq<int>>>) {
    step(t, pop, gen)
  }

  /** step runs the generations of these settings and draws on every population
      with one gene per room. */
  ghost predicate RunsGenerations(step: Step, cfg: Settings, coins: Coins) {
    forall t: Tracker, pop: seq<seq<int>>, gen: nat {:trigger Ran(step, t, pop, gen)} ::
      Sized(pop, |cfg.roomIds|) ==> Ran(step, t, pop, gen) == Generation(cfg, t, pop, gen, coins)
  }

  lemma {:induction false} GenerationStepRuns(cfg: Settings, coins: Coins)
    ensures RunsGenerations(GenerationStep(cfg, coins), cfg, coins)
  {
    forall t: Tracker, pop: seq<seq<int>>, gen: nat | Sized(pop, |cfg.roomIds|)
      ensures Ran(GenerationStep(cfg, coins), t, pop, gen) == Generation(cfg, t, pop, gen, coins)
    {
    }
  }

  /** `count` steps, numbered from gen on; the first error ends the run. */
  function Evolve(step: Step, t: Tracker, pop: seq<seq<int>>, gen: nat, count: nat): (r: (Tracker, Result<seq<seq<int>>>))
    decreases count
  {
    if count == 0 then (t, Ok(pop))
    else
      var r := step(t, pop, gen);
      if r.1.Err? then r else Evolve(step, r.0, r.1.value, gen + 1, count - 1)
  }

  /** The first k chromosomes of the first population: each a shuffle of the room
      indices. */
  function FirstPopulation(cfg: Settings, coins: Coins, k: nat): (pop: seq<seq<int>>)
    ensures |pop| == k && Sized(pop, |cfg.roomIds|)
    ensures forall i | 0 <= i < k :: pop[i] == Shuffle(Range(|cfg.roomIds|), coins.shuffles(i))
    decreases k
  {
    if k == 0 then []
    else
      var prev, last := FirstPopulation(cfg, coins, k - 1), Shuffle(Range(|cfg.roomIds|), coins.shuffles(k - 1));
      assert |last| == |cfg.roomIds|;
      assert forall i | 0 <= i < k - 1 :: (prev + [last])[i] == prev[i];
      prev + [last]
  }

  /** The answer of optimize: the best chromosome decoded; decoding fails when there is
      no best chromosome. */
  function Answer(cfg: Settings, best: Option<seq<int>>): Result<Assignment> {
    match best
    case None => Err(NoSolution)
    case Some(c) => Decode(cfg.roomIds, c, cfg.nResponders)
  }

  // ---------------------------------------------------------------------------
  // The optimizer

  class GeneticOptimizer {
    const building: Building
    const nResponders: nat
    const populationSize: nat
    const generations: nat
    const mutationRate: real
    const crossoverRate: real
    const team: ResponderTeam
    const roomIds: seq<string>
    /** The coarse graph the quick simulations run on. */
    const graph: CoarseGraph.BuildingGraph
    /** The quick simulation and load penalty on this building and team. */
    const quick: Assignment -> Result<real>
    var bestSolution: Option<seq<int>>
    var bestFitness: Ext
    var fitnessHistory: seq<Ext>

    function Config(): Settings {
      Settings(roomIds, nResponders, populationSize, mutationRate, crossoverRate, quick)
    }

    function State(): Tracker
      reads this
    {
      Tracker(bestSolution, bestFitness, fitnessHistory)
    }

    /** __init__: the team as the other optimizers build it, the room ids in the
        building's order, no best chromosome, best fitness inf, empty history. */
    constructor (building: Building, nResponders: nat, initialPositions: Option<seq<string>>,
                 capabilities: map<string, real>, populationSize: nat, generations: nat,
                 mutationRate: real, crossoverRate: real, find: Networks.PathFinder, std: seq<real> -> real)
      requires building.Valid()
      requires initialPositions.Some? || DefaultPositions(building.exits.keys, nResponders).Ok?
      ensures this.building == building && this.nResponders == nResponders
      ensures this.populationSize == populationSize && this.generations == generations
      ensures this.mutationRate == mutationRate && this.crossoverRate == crossoverRate
      ensures graph.building == building && graph.find == find
      ensures forall a :: quick(a) == QuickFitness(graph, team.responders, building.rooms, std, a)
      ensures roomIds == building.rooms.keys
      ensures bestSolution == None && bestFitness == Inf && fitnessHistory == []
      ensures initialPositions.Some? ==>
                team.BuiltFrom(nResponders, PaddedPositions(nResponders, initialPositions), capabilities)
      ensures initialPositions.None? ==>
                team.BuiltFrom(nResponders, DefaultPositions(building.exits.keys, nResponders).value, capabilities)
    {
      this.building := building;
      this.nResponders := nResponders;
      this.populationSize := populationSize;
      this.generations := generations;
      this.mutationRate := mutationRate;
      this.crossoverRate := crossoverRate;
      var positions := initialPositions;
      if positions.None? {
        positions := Some(DefaultPositions(building.exits.keys, nResponders).value);
      }
      var t := new ResponderTeam(nResponders, positions, capabilities);
      team := t;
      var g := new CoarseGraph.BuildingGraph(building, find);
      graph := g;
      var rooms, rs := building.rooms, t.responders;
      quick := (a: Assignment) => QuickFitness(g, rs, rooms, std, a);
      roomIds := building.rooms.keys;
      bestSolution := None;
      bestFitness := Inf;
      fitnessHistory := [];
    }

    /** __init__ as the caller sees it: with no initial positions and no exit to start
        from, working out the default positions divides by zero and no optimizer results. */
    static method Create(building: Building, nResponders: nat, initialPositions: Option<seq<string>>,
                         capabilities: map<string, real>, populationSize: nat, generations: nat,
                         mutationRate: real, crossoverRate: real, find: Networks.PathFinder, std: seq<real> -> real)
      returns (r: Result<GeneticOptimizer>)
      requires building.Valid()
      ensures r.Err? <==> initialPositions.None? && building.exits.keys == [] && nResponders > 0
      ensures r.Err? ==> r.error == ZeroDivision
      ensures r.Ok? ==> fresh(r.value) && r.value.building == building && r.value.nResponders == nResponders
                        && r.value.bestSolution == None && r.value.bestFitness == Inf && r.value.fitnessHistory == []
    {
      if initialPositions.None? && DefaultPositions(building.exits.keys, nResponders).Err? {
        return Err(ZeroDivision);
      }
      var o := new GeneticOptimizer(building, nResponders, initialPositions, capabilities, populationSize,
                                    generations, mutationRate, crossoverRate, find, std);
      return Ok(o);
    }

    /** One pass of the generation loop of optimize: score the population, track the
        best, select and breed. */
    method Advance(population: seq<seq<int>>, generation: nat, coins: Coins, ghost step: Step)
      returns (next: Result<seq<seq<int>>>)
      requires Sized(population, |roomIds|) && RunsGenerations(step, Config(), coins)
      modifies this
      ensures (State(), next) == step(old(State()), population, generation)
      ensures next.Ok? ==> Sized(next.value, |roomIds|)
    {
      ghost var goal := Generation(Config(), State(), population, generation, coins);
      assert Ran(step, State(), population, generation) == goal;
      var scored := ScorePopulation(Config(), population);
      if scored.Err? {
        return Err(scored.error);
      }
      var fitnessScores := scored.value;
      if population == [] {
        return Err(ValueError);
      }
      var minFitnessIdx := ArgMinExt(fitnessScores);
      if fitnessScores[minFitnessIdx].Lt(bestFitness) {
        bestFitness := fitnessScores[minFitnessIdx];
        bestSolution := Some(population[minFitnessIdx]);
      }
      fitnessHistory := fitnessHistory + [bestFitness];
      assert State() == Track(old(State()), population, fitnessScores);
      next := Reproduce(Config(), population, fitnessScores, generation, coins);
      assert (State(), next) == goal;
    }

    /** optimize: the fields end as the generations leave them, an error of a
        generation is raised, and otherwise the best chromosome is decoded. */
    method Optimize(coins: Coins) returns (r: Result<Assignment>)
      modifies this
      ensures var (t, outcome) := Evolve(GenerationStep(Config(), coins), old(State()),
                                         FirstPopulation(Config(), coins, populationSize), 0, generations);
        && State() == t
        && r == if outcome.Err? then Err(outcome.error) else Answer(Config(), t.best)
    {
      var population := InitializePopulation(populationSize, |roomIds|, coins.shuffles);
      assert population == FirstPopulation(Config(), coins, populationSize);
      GenerationStepRuns(Config(), coins);
      var outcome := Evolution(population, coins, GenerationStep(Config(), coins));
      if outcome.Err? {
        return Err(outcome.error);
      }
      if bestSolution.None? {
        r := Err(NoSolution);
      } else {
        r := ChromosomeToAssignment(roomIds, bestSolution.value, nResponders);
      }
    }

    /** The generation loop of optimize, from the initial population on. */
    method Evolution(population: seq<seq<int>>, coins: Coins, ghost step: Step) returns (outcome: Result<seq<seq<int>>>)
      requires Sized(population, |roomIds|) && RunsGenerations(step, Config(), coins)
      modifies this
      ensures (State(), outcome) == Evolve(step, old(State()), population, 0, generations)
    {
      ghost var goal := Evolve(step, State(), population, 0, generations);
      var current := population;
      var generation := 0;
      while generation < generations
        invariant 0 <= generation <= generations
        invariant Sized(current, |roomIds|)
        invariant goal == Evolve(step, State(), current, generation, generations - generation)
      {
        ghost var before := State();
        var next := Advance(current, generation, coins, step);
        EvolveOnce(step, before, current, generation, generations - generation, State(), next);
        if next.Err? {
          return next;
        }
        current := next.value;
        generation := generation + 1;
      }
      outcome := Ok(current);
    }
  }

  // ---------------------------------------------------------------------------
  // What the generations promise

  /** A generation keeps the fields sound. */
  lemma {:induction false} GenerationSound(cfg: Settings, t: Tracker, pop: seq<seq<int>>, gen: nat, coins: Coins)
    requires Sound(cfg, t) && Sized(pop, |cfg.roomIds|)
    ensures Sound(cfg, Generation(cfg, t, pop, gen, coins).0)
  {
    var s := Scores(cfg, pop);
    if s.Ok? && pop != [] {
      TrackSound(cfg, t, pop, s.value);
    }
  }

  /** A generation either leaves the fields alone (it failed before tracking) or
      appends the new best fitness to the history; one that completes always appends,
      and the best fitness never rises. */
  lemma {:induction false} GenerationHistory(cfg: Settings, t: Tracker, pop: seq<seq<int>>, gen: nat, coins: Coins)
    requires Sized(pop, |cfg.roomIds|)
    ensures var (t', next) := Generation(cfg, t, pop, gen, coins);
      && (t' == t || t'.history == t.history + [t'.bestFitness])
      && (next.Ok? ==> t'.history == t.history + [t'.bestFitness])
      && !t.bestFitness.Lt(t'.bestFitness)
  {
  }

  // ---------------------------------------------------------------------------
  // What a run of steps promises

  /** A property of the fields that every step keeps is kept by every run, and so is
      a property of the population that every completed step keeps. */
  lemma {:induction false} EvolveKeeps(step: Step, Fields: Tracker -> bool, Pop: seq<seq<int>> -> bool,
                                      t: Tracker, pop: seq<seq<int>>, gen: nat, count: nat)
    requires forall t': Tracker, p: seq<seq<int>>, g: nat | Fields(t') && Pop(p) ::
               Fields(step(t', p, g).0) && (step(t', p, g).1.Ok? ==> Pop(step(t', p, g).1.value))
    requires Fields(t) && Pop(pop)
    ensures Fields(Evolve(step, t, pop, gen, count).0)
    ensures Evolve(step, t, pop, gen, count).1.Ok? ==> Pop(Evolve(step, t, pop, gen, count).1.value)
    decreases count
  {
    if count > 0 {
      var r := step(t, pop, gen);
      if r.1.Ok? {
        EvolveKeeps(step, Fields, Pop, r.0, r.1.value, gen + 1, count - 1);
      }
    }
  }

  /** A run of count > 0 steps is its first step followed by the rest. */
  lemma {:induction false} EvolveOnce(step: Step, t: Tracker, pop: seq<seq<int>>, gen: nat, count: nat,
                                      t1: Tracker, next: Result<seq<seq<int>>>)
    requires count > 0 && step(t, pop, gen) == (t1, next)
    ensures next.Err? ==> Evolve(step, t, pop, gen, count) == (t1, next)
    ensures next.Ok? ==> Evolve(step, t, pop, gen, count) == Evolve(step, t1, next.value, gen + 1, count - 1)
  {
  }

  /** What one step may do to the history: nothing, or append the new best fitness,
      never above the old one; a step that completes always appends. */
  ghost predicate Extends(t: Tracker, t': Tracker, completed: bool) {
    && (t' == t || t'.history == t.history + [t'.bestFitness])
    && (completed ==> t'.history == t.history + [t'.bestFitness])
    && !t.bestFitness.Lt(t'.bestFitness)
  }

  /** When every step extends the history so, a run of count steps keeps the history
      as a prefix, adds at most count entries and exactly count when it completes,
      and never raises the best fitness. */
  lemma {:induction false} EvolveHistory(step: Step, t: Tracker, pop: seq<seq<int>>, gen: nat, count: nat)
    requires forall t': Tracker, p: seq<seq<int>>, g: nat :: Extends(t', step(t', p, g).0, step(t', p, g).1.Ok?)
    ensures var (t', outcome) := Evolve(step, t, pop, gen, count);
      && |t.history| <= |t'.history| <= |t.history| + count
      && t'.history[..|t.history|] == t.history
      && (outcome.Ok? ==> |t'.history| == |t.history| + count)
      && !t.bestFitness.Lt(t'.bestFitness)
    decreases count
  {
    if count > 0 {
      var r := step(t, pop, gen);
      var t1 := r.0;
      assert Extends(t, t1, r.1.Ok?);
      assert t1.history[..|t.history|] == t.history;
      if r.1.Ok? {
        EvolveHistory(step, t1, r.1.value, gen + 1, count - 1);
        var t' := Evolve(step, t1, r.1.value, gen + 1, count - 1).0;
        assert t'.history[..|t.history|] == t'.history[..|t1.history|][..|t.history|];
      }
    } else {
      assert t.history[..|t.history|] == t.history;
    }
  }

  // ---------------------------------------------------------------------------
  // What the genetic run promises

  /** The generation step keeps the fields sound. */
  lemma {:induction false} StepSound(cfg: Settings, coins: Coins)
    ensures forall t: Tracker, p: seq<seq<int>>, g: nat | Sound(cfg, t) :: Sound(cfg, GenerationStep(cfg, coins)(t, p, g).0)
  {
    forall t: Tracker, p: seq<seq<int>>, g: nat | Sound(cfg, t) ensures Sound(cfg, GenerationStep(cfg, coins)(t, p, g).0) {
      if Sized(p, |cfg.roomIds|) {
        GenerationSound(cfg, t, p, g, coins);
      }
    }
  }

  /** The generation step extends the history as Extends says. */
  lemma {:induction false} StepExtends(cfg: Settings, coins: Coins)
    ensures forall t: Tracker, p: seq<seq<int>>, g: nat ::
              Extends(t, GenerationStep(cfg, coins)(t, p, g).0, GenerationStep(cfg, coins)(t, p, g).1.Ok?)
  {
    forall t: Tracker, p: seq<seq<int>>, g: nat
      ensures Extends(t, GenerationStep(cfg, coins)(t, p, g).0, GenerationStep(cfg, coins)(t, p, g).1.Ok?)
    {
      if Sized(p, |cfg.roomIds|) {
        GenerationHistory(cfg, t, p, g, coins);
      }
    }
  }

  /** The generation step turns permutations into permutations. */
  lemma {:induction false} StepPermutations(cfg: Settings, coins: Coins)
    ensures forall t: Tracker, p: seq<seq<int>>, g: nat
              | Sized(p, |cfg.roomIds|) && AllPermutations(p, |cfg.roomIds|) && GenerationStep(cfg, coins)(t, p, g).1.Ok? ::
              && Sized(GenerationStep(cfg, coins)(t, p, g).1.value, |cfg.roomIds|)
              && AllPermutations(GenerationStep(cfg, coins)(t, p, g).1.value, |cfg.roomIds|)
  {
    forall t: Tracker, p: seq<seq<int>>, g: nat
      | Sized(p, |cfg.roomIds|) && AllPermutations(p, |cfg.roomIds|) && GenerationStep(cfg, coins)(t, p, g).1.Ok?
      ensures && Sized(GenerationStep(cfg, coins)(t, p, g).1.value, |cfg.roomIds|)
              && AllPermutations(GenerationStep(cfg, coins)(t, p, g).1.value, |cfg.roomIds|)
    {
      GenerationPermutations(cfg, t, p, g, coins);
    }
  }

  /** Over the whole run the fields stay sound, the history grows by one entry per
      generation run to its end (by exactly `generations` when no generation fails)
      and never rises, and every population is made of permutations of the room
      indices. */
  lemma {:induction false} RunFacts(cfg: Settings, coins: Coins, generations: nat)
    ensures var (t, outcome) := Evolve(GenerationStep(cfg, coins), Tracker(None, Inf, []),
                                       FirstPopulation(cfg, coins, cfg.populationSize), 0, generations);
      && Sound(cfg, t)
      && |t.history| <= generations
      && (outcome.Ok? ==> |t.history| == generations && AllPermutations(outcome.value, |cfg.roomIds|))
      && Descending(t.history)
  {
    var step := GenerationStep(cfg, coins);
    var pop := FirstPopulation(cfg, coins, cfg.populationSize);
    FreshSound(cfg);
    StepSound(cfg, coins);
    EvolveKeeps(step, t => Sound(cfg, t), p => true, Tracker(None, Inf, []), pop, 0, generations);
    StepExtends(cfg, coins);
    EvolveHistory(step, Tracker(None, Inf, []), pop, 0, generations);
    FirstPermutations(cfg, coins);
    StepPermutations(cfg, coins);
    EvolveKeeps(step, t => true, p => Sized(p, |cfg.roomIds|) && AllPermutations(p, |cfg.roomIds|),
                Tracker(None, Inf, []), pop, 0, generations);
  }

  /** The answer fails for want of a chromosome exactly when no chromosome ever
      scored below inf; with no generation at all a fresh optimizer always fails so. */
  lemma {:induction false} AnswerNoSolution(cfg: Settings, t: Tracker)
    requires Sound(cfg, t)
    ensures Answer(cfg, t.best) == Err(NoSolution) <==> t.bestFitness == Inf
    ensures t.best.Some? ==> Answer(cfg, t.best).Ok?
  {
    if t.best.Some? {
      assert Fitness(cfg, t.best.value).Ok?;
    }
  }

  /** A generation that completes leaves min(population_size, 2 * ceil(len / 2))
      chromosomes. */
  lemma {:induction false} GenerationSize(cfg: Settings, t: Tracker, pop: seq<seq<int>>, gen: nat, coins: Coins)
    requires Sized(pop, |cfg.roomIds|)
    requires Generation(cfg, t, pop, gen, coins).1.Ok?
    ensures var m := 2 * Pairs(|pop|);
      |Generation(cfg, t, pop, gen, coins).1.value| == if cfg.populationSize < m then cfg.populationSize else m
  {
  }

  /** Children of permutations are permutations: crossover and mutation both keep the
      genes. */
  lemma {:induction false} ChildrenPermutations(cfg: Settings, sel: seq<seq<int>>, gen: nat, p: nat, coins: Coins)
    requires 2 * p < |sel| && Sized(sel, |cfg.roomIds|) && AllPermutations(sel, |cfg.roomIds|)
    requires Children(cfg, sel, gen, p, coins).Ok?
    ensures IsPermutation(Children(cfg, sel, gen, p, coins).value.0, |cfg.roomIds|)
    ensures IsPermutation(Children(cfg, sel, gen, p, coins).value.1, |cfg.roomIds|)
  {
    var (p1, p2) := Parents(sel, p);
    assert IsPermutation(p1, |cfg.roomIds|) && IsPermutation(p2, |cfg.roomIds|);
    if coins.crossRoll(gen, p) < cfg.crossoverRate {
      PermutationGenes(p1, |cfg.roomIds|);
      CrossoverPermutation(p1, p2, coins.cuts(gen, p));
    }
  }

  lemma {:induction false} OffspringPermutations(cfg: Settings, sel: seq<seq<int>>, gen: nat, coins: Coins)
    requires Sized(sel, |cfg.roomIds|) && AllPermutations(sel, |cfg.roomIds|)
    requires Offspring(cfg, sel, gen, coins).Ok?
    ensures AllPermutations(Offspring(cfg, sel, gen, coins).value, |cfg.roomIds|)
  {
    var b := Broods(cfg, sel, gen, coins, Pairs(|sel|));
    var n := |cfg.roomIds|;
    forall p | 0 <= p < |b| && b[p].Ok?
      ensures IsPermutation(b[p].value.0, n) && IsPermutation(b[p].value.1, n)
    {
      BroodsAt(cfg, sel, gen, coins, |b|, p);
      ChildrenPermutations(cfg, sel, gen, p, coins);
    }
    GatherAll(b, c => IsPermutation(c, n));
  }

  /** Every generation is made of permutations of the room indices, like the first. */
  lemma {:induction false} GenerationPermutations(cfg: Settings, t: Tracker, pop: seq<seq<int>>, gen: nat, coins: Coins)
    requires Sized(pop, |cfg.roomIds|) && AllPermutations(pop, |cfg.roomIds|)
    requires Generation(cfg, t, pop, gen, coins).1.Ok?
    ensures AllPermutations(Generation(cfg, t, pop, gen, coins).1.value, |cfg.roomIds|)
  {
    BredPermutations(cfg, pop, Scores(cfg, pop).value, gen, coins);
  }

  /** Selection and breeding keep every chromosome a permutation. */
  lemma {:induction false} BredPermutations(cfg: Settings, pop: seq<seq<int>>, scores: seq<Ext>, gen: nat, coins: Coins)
    requires |scores| == |pop| && Sized(pop, |cfg.roomIds|) && AllPermutations(pop, |cfg.roomIds|)
    ensures Bred(cfg, pop, scores, gen, coins).Ok? ==> AllPermutations(Bred(cfg, pop, scores, gen, coins).value, |cfg.roomIds|)
  {
    var n := |cfg.roomIds|;
    var sel := Selected(pop, scores, gen, coins);
    if sel.Ok? {
      SelectedAll(pop, scores, gen, coins, c => IsPermutation(c, n));
      SelectedAll(pop, scores, gen, coins, c => |c| == n);
      assert Sized(sel.value, n) && AllPermutations(sel.value, n);
      var kids := Offspring(cfg, sel.value, gen, coins);
      if kids.Ok? {
        OffspringPermutations(cfg, sel.value, gen, coins);
        var next := Truncated(kids.value, cfg.populationSize);
        assert forall i | 0 <= i < |next| :: next[i] == kids.value[i];
      }
    }
  }

  /** With permutations only, scoring fails only by dividing by zero: no responder,
      or fewer rooms than responders. */
  lemma {:induction false} ScoresOfPermutations(cfg: Settings, pop: seq<seq<int>>)
    requires AllPermutations(pop, |cfg.roomIds|)
    ensures Scores(cfg, pop).Err? <==> pop != [] && (cfg.nResponders == 0 || 0 < |cfg.roomIds| < cfg.nResponders)
    ensures Scores(cfg, pop).Err? ==> Scores(cfg, pop).error == ZeroDivision
    decreases |pop|
  {
    if pop != [] {
      var init := pop[..|pop| - 1];
      assert forall i | 0 <= i < |init| :: init[i] == pop[i];
      ScoresOfPermutations(cfg, init);
      DecodePermutation(cfg.roomIds, pop[|pop| - 1], cfg.nResponders);
    }
  }

  /** The first population is made of permutations of the room indices. */
  lemma {:induction false} FirstPermutations(cfg: Settings, coins: Coins)
    ensures AllPermutations(FirstPopulation(cfg, coins, cfg.populationSize), |cfg.roomIds|)
  {
    var pop := FirstPopulation(cfg, coins, cfg.populationSize);
    forall i | 0 <= i < |pop| ensures IsPermutation(pop[i], |cfg.roomIds|) {
      assert pop[i] == Shuffle(Range(|cfg.roomIds|), coins.shuffles(i));
    }
  }
}
