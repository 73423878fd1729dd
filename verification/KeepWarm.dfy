/**
 The published tables kept warm: one task a table, all sharing what the tables weigh and a flag
 that says they were found not to fit. A run is any interleaving of the tasks' steps, each of them
 one touch of something shared: a load of the flag, the locked update, the swap, the log.
 */
module KeepWarm {
  import opened Wrappers

  const U64_MAX: nat := 0xFFFF_FFFF_FFFF_FFFF

  type U64 = n: nat | n <= U64_MAX

  // ---- What the tables weigh together ----

  function Capped(n: nat): U64 {
    if n <= U64_MAX then n else U64_MAX
  }

  function SaturatingAdd(a: U64, b: U64): U64 {
    Capped(a + b)
  }

  ghost function SumOver(keys: set<string>, weights: map<string, U64>): nat
    requires keys <= weights.Keys
    decreases |keys|
  {
    if keys == {} then 0
    else
      var key :| key in keys;
      weights[key] + SumOver(keys - {key}, weights)
  }

  /** The exact sum, which no order of the keys has a part in. */
  ghost function Sum(weights: map<string, U64>): nat {
    SumOver(weights.Keys, weights)
  }

  lemma {:induction false} SumWithout(keys: set<string>, weights: map<string, U64>, key: string)
    requires keys <= weights.Keys && key in keys
    ensures SumOver(keys, weights) == weights[key] + SumOver(keys - {key}, weights)
    decreases |keys|
  {
    var first :| first in keys && SumOver(keys, weights) == weights[first] + SumOver(keys - {first}, weights);
    if first != key {
      SumWithout(keys - {first}, weights, key);
      SumWithout(keys - {key}, weights, first);
      assert keys - {first} - {key} == keys - {key} - {first};
    }
  }

  /** The sum the code makes, saturating at each addition, taking the weights as the map happens to give them. */
  method Total(weights: map<string, U64>) returns (total: U64)
    ensures total == Capped(Sum(weights))
  {
    total := 0;
    var keys := weights.Keys;
    while keys != {}
      invariant keys <= weights.Keys
      invariant Capped(total + SumOver(keys, weights)) == Capped(Sum(weights))
      decreases |keys|
    {
      var key :| key in keys;
      SumWithout(keys, weights, key);
      total := SaturatingAdd(total, weights[key]);
      keys := keys - {key};
    }
  }

  /** The capped sum decides as the exact one would, but for a budget of every byte there is. */
  lemma {:induction false} CappedDecides(weights: map<string, U64>, budget: U64)
    ensures (Capped(Sum(weights)) > budget <==> Sum(weights) > budget) <==> budget < U64_MAX || Sum(weights) <= U64_MAX
  {
    if budget < U64_MAX {
      assert Capped(Sum(weights)) > budget <==> Sum(weights) > budget;
    }
  }

  class Footprint {
    var weights: map<string, U64>
    var overflowed: bool
    /** How many times the operator has been told. */
    var warnings: nat

    constructor ()
      ensures weights == map[] && !overflowed && warnings == 0
    {
      weights, overflowed, warnings := map[], false, 0;
    }

    /** One call with nothing between its steps: record, say whether the tables fit, and tell the operator once. */
    method Fits(name: string, weight: U64, maxBytes: U64) returns (fits: bool)
      modifies this
      ensures old(overflowed) ==> !fits && unchanged(this)
      ensures !old(overflowed) ==>
                && weights == old(weights)[name := weight]
                && fits == (Capped(Sum(weights)) <= maxBytes)
                && overflowed == !fits
                && warnings == old(warnings) + if fits then 0 else 1
    {
      if overflowed {
        return false;
      }
      weights := weights[name := weight];
      var total := Total(weights);
      if total <= maxBytes {
        return true;
      }
      var was := overflowed;
      overflowed := true;
      if !was {
        warnings := warnings + 1;
      }
      return false;
    }
  }

  // ---- The tasks ----

  datatype Lifetime = Off | Forever | Lasting

  /** Where a task is: what its next step touches. */
  datatype Point =
    | Checking
    | Choosing
    | Reading
    | Loading(weight: U64)
    | Recording(weight: U64)
    | Swapping
    | Telling
    | Sleeping
    | Returned

  /** Where it is, and how many reads it has begun. */
  datatype Task = Task(at: Point, begun: nat)

  datatype State = State(tasks: seq<Task>, weights: map<string, U64>, overflowed: bool, warnings: nat)

  datatype Table = Table(name: string, lifetime: Lifetime)

  datatype Config = Config(tables: seq<Table>, budget: U64)

  /** Which task steps, and what its read comes to if it is reading. */
  datatype Move = Move(task: nat, read: Option<U64>)

  function Start(c: Config): State {
    State(seq(|c.tables|, i => Task(Checking, 0)), map[], false, 0)
  }

  ghost predicate Over(c: Config, weights: map<string, U64>) {
    Capped(Sum(weights)) > c.budget
  }

  /** Where a task's step leads, which only its own place and what is shared decide. */
  ghost function Next(c: Config, s: State, t: Table, at: Point, read: Option<U64>): Point {
    match at
    case Checking => if s.overflowed then Returned else Choosing
    case Choosing => if t.lifetime.Off? then Returned else Reading
    case Reading => if read.Some? then Loading(read.value) else Sleeping
    case Loading(weight) => if s.overflowed then Returned else Recording(weight)
    case Recording(weight) =>
      if Over(c, s.weights[t.name := weight]) then Swapping
      else if t.lifetime.Lasting? then Sleeping
      else Returned
    case Swapping => if s.overflowed then Returned else Telling
    case Telling => Returned
    case Sleeping => Checking
    case Returned => Returned
  }

  ghost function Step(c: Config, s: State, m: Move): State
    requires |s.tasks| == |c.tables|
  {
    if m.task >= |s.tasks| then s
    else
      var task := s.tasks[m.task];
      var table := c.tables[m.task];
      var next := Next(c, s, table, task.at, m.read);
      State(s.tasks[m.task := Task(next, if task.at.Choosing? && next.Reading? then task.begun + 1 else task.begun)],
            if task.at.Recording? then s.weights[table.name := task.at.weight] else s.weights,
            s.overflowed || task.at.Swapping?,
            if task.at.Telling? then s.warnings + 1 else s.warnings)
  }

  ghost function Run(c: Config, s: State, moves: seq<Move>): (r: State)
    requires |s.tasks| == |c.tables|
    ensures |r.tasks| == |c.tables|
    decreases |moves|
  {
    if moves == [] then s
    else Step(c, Run(c, s, moves[..|moves| - 1]), moves[|moves| - 1])
  }

  ghost function Ran(c: Config, moves: seq<Move>): State {
    Run(c, Start(c), moves)
  }

  // ---- What every run keeps ----

  predicate SomeSwapping(s: State) {
    exists i :: 0 <= i < |s.tasks| && s.tasks[i].at.Swapping?
  }

  /** Whether the weights recorded were ever too much, along a run. */
  ghost predicate EverOver(c: Config, moves: seq<Move>) {
    exists n :: 0 <= n <= |moves| && Over(c, Ran(c, moves[..n]).weights)
  }

  /**
   The flag tells the truth: it is set, or some task is on its way to set it, exactly when the
   weights recorded came at some time to more than the budget.
   */
  lemma {:induction false} FlagIsTrue(c: Config, moves: seq<Move>)
    ensures Ran(c, moves).overflowed || SomeSwapping(Ran(c, moves)) <==> EverOver(c, moves)
    decreases |moves|
  {
    assert moves[..|moves|] == moves;
    if moves == [] {
      assert SumOver({}, map[]) == 0;
      assert forall n :: 0 <= n <= |moves| ==> moves[..n] == [];
    } else {
      var before := moves[..|moves| - 1];
      FlagIsTrue(c, before);
      EverOverNext(c, moves);
      assert before[..|before|] == before;
      assert Over(c, Ran(c, before).weights) ==> EverOver(c, before);
      StepTells(c, Ran(c, before), moves[|moves| - 1]);
    }
  }

  /** In exact sums, for any budget but the largest count there is. */
  lemma {:induction false} FlagIsExact(c: Config, moves: seq<Move>)
    requires c.budget < U64_MAX
    ensures Ran(c, moves).overflowed || SomeSwapping(Ran(c, moves)) <==>
              exists n :: 0 <= n <= |moves| && Sum(Ran(c, moves[..n]).weights) > c.budget
  {
    FlagIsTrue(c, moves);
    forall n | 0 <= n <= |moves|
      ensures Over(c, Ran(c, moves[..n]).weights) <==> Sum(Ran(c, moves[..n]).weights) > c.budget
    {
      CappedDecides(Ran(c, moves[..n]).weights, c.budget);
    }
  }

  lemma {:induction false} EverOverNext(c: Config, moves: seq<Move>)
    requires moves != []
    ensures EverOver(c, moves) <==> EverOver(c, moves[..|moves| - 1]) || Over(c, Ran(c, moves).weights)
  {
    var before := moves[..|moves| - 1];
    assert forall n :: 0 <= n < |moves| ==> moves[..n] == before[..n];
    assert moves[..|moves|] == moves;
    if EverOver(c, before) {
      var n :| 0 <= n <= |before| && Over(c, Ran(c, before[..n]).weights);
      assert Over(c, Ran(c, moves[..n]).weights);
    }
    if EverOver(c, moves) {
      var n :| 0 <= n <= |moves| && Over(c, Ran(c, moves[..n]).weights);
      if n < |moves| {
        assert Over(c, Ran(c, before[..n]).weights);
      }
    }
  }

  /** A step sets a task going to set the flag exactly when it makes the weights too much, or one was going already. */
  lemma {:induction false} StepTells(c: Config, s: State, m: Move)
    requires |s.tasks| == |c.tables|
    ensures var next := Step(c, s, m);
            && (s.overflowed || SomeSwapping(s) ==> next.overflowed || SomeSwapping(next))
            && (next.overflowed || SomeSwapping(next) ==> s.overflowed || SomeSwapping(s) || Over(c, next.weights))
            && (Over(c, next.weights) ==> next.weights == s.weights || SomeSwapping(next))
  {
    var next := Step(c, s, m);
    if m.task < |s.tasks| {
      var at := s.tasks[m.task].at;
      if SomeSwapping(s) && !at.Swapping? {
        var i :| 0 <= i < |s.tasks| && s.tasks[i].at.Swapping?;
        assert next.tasks[i].at.Swapping?;
      }
      if SomeSwapping(next) {
        var i :| 0 <= i < |next.tasks| && next.tasks[i].at.Swapping?;
        if i != m.task {
          assert s.tasks[i].at.Swapping?;
        }
      }
      if at.Recording? && Over(c, next.weights) {
        assert next.tasks[m.task].at.Swapping?;
      }
    }
  }

  function CountTelling(tasks: seq<Task>): nat {
    if tasks == [] then 0 else (if tasks[0].at.Telling? then 1 else 0) + CountTelling(tasks[1..])
  }

  lemma {:induction false} CountAfter(tasks: seq<Task>, i: nat, task: Task)
    requires i < |tasks|
    ensures CountTelling(tasks[i := task]) ==
            CountTelling(tasks) - (if tasks[i].at.Telling? then 1 else 0) + (if task.at.Telling? then 1 else 0)
  {
    if i == 0 {
      assert tasks[i := task][1..] == tasks[1..];
    } else {
      CountAfter(tasks[1..], i - 1, task);
      assert tasks[i := task][1..] == tasks[1..][i - 1 := task];
    }
  }

  lemma {:induction false} NoneTelling(n: nat)
    ensures CountTelling(seq(n, i => Task(Checking, 0))) == 0
  {
    var tasks := seq(n, i => Task(Checking, 0));
    if n > 0 {
      NoneTelling(n - 1);
      assert tasks[1..] == seq(n - 1, i => Task(Checking, 0));
    }
  }

  /** The operator is told once, or is about to be, exactly when the flag is set; and otherwise not at all. */
  lemma {:induction false} ToldOnce(c: Config, moves: seq<Move>)
    ensures var s := Ran(c, moves);
            s.warnings + CountTelling(s.tasks) == if s.overflowed then 1 else 0
    decreases |moves|
  {
    if moves == [] {
      NoneTelling(|c.tables|);
    } else {
      var before := moves[..|moves| - 1];
      ToldOnce(c, before);
      var s, m := Ran(c, before), moves[|moves| - 1];
      if m.task < |s.tasks| {
        CountAfter(s.tasks, m.task, Step(c, s, m).tasks[m.task]);
      }
    }
  }

  lemma {:induction false} RunNext(c: Config, s: State, moves: seq<Move>, m: Move)
    requires |s.tasks| == |c.tables|
    ensures Run(c, s, moves + [m]) == Step(c, Run(c, s, moves), m)
  {
    assert (moves + [m])[..|moves|] == moves;
  }

  /** Once set, the flag stays set. */
  lemma {:induction false} FlagNeverClears(c: Config, s: State, moves: seq<Move>)
    requires |s.tasks| == |c.tables| && s.overflowed
    ensures Run(c, s, moves).overflowed
    decreases |moves|
  {
    if moves != [] {
      FlagNeverClears(c, s, moves[..|moves| - 1]);
    }
  }

  /** Once the flag is set a task begins at most one read more, and only if it was past the check. */
  lemma {:induction false} ReadsAfterFlag(c: Config, s: State, moves: seq<Move>, i: nat)
    requires |s.tasks| == |c.tables| && s.overflowed && i < |s.tasks|
    ensures var later := Run(c, s, moves).tasks[i];
            && s.tasks[i].begun <= later.begun
            && later.begun + (if later.at.Choosing? then 1 else 0)
               <= s.tasks[i].begun + (if s.tasks[i].at.Choosing? then 1 else 0)
    decreases |moves|
  {
    if moves != [] {
      FlagNeverClears(c, s, moves[..|moves| - 1]);
      ReadsAfterFlag(c, s, moves[..|moves| - 1], i);
    }
  }

  /** How many steps a task has left once the flag is set, at most. */
  function Remaining(at: Point): nat {
    match at
    case Returned => 0
    case Checking => 1
    case Loading(_) => 1
    case Telling => 1
    case Sleeping => 2
    case Swapping => 2
    case Reading => 3
    case Recording(_) => 3
    case Choosing => 4
  }

  function StepsOf(moves: seq<Move>, i: nat): nat
    decreases |moves|
  {
    if moves == [] then 0
    else StepsOf(moves[..|moves| - 1], i) + if moves[|moves| - 1].task == i then 1 else 0
  }

  /** Once the flag is set every task returns, within as many steps of its own as it has left. */
  lemma {:induction false} EveryTaskReturns(c: Config, s: State, moves: seq<Move>, i: nat)
    requires |s.tasks| == |c.tables| && s.overflowed && i < |s.tasks|
    ensures Remaining(Run(c, s, moves).tasks[i].at) <= Natural(Remaining(s.tasks[i].at) - StepsOf(moves, i))
    ensures StepsOf(moves, i) >= 4 ==> Run(c, s, moves).tasks[i].at.Returned?
    decreases |moves|
  {
    if moves != [] {
      FlagNeverClears(c, s, moves[..|moves| - 1]);
      EveryTaskReturns(c, s, moves[..|moves| - 1], i);
    }
  }

  function Natural(n: int): nat {
    if n < 0 then 0 else n
  }

  // ---- What every task goes on doing until then ----

  /** Whether a read of a task's has succeeded along a run. */
  ghost predicate HasRead(c: Config, moves: seq<Move>, i: nat)
    requires i < |c.tables|
  {
    exists n :: 0 <= n < |moves| && moves[n].task == i && moves[n].read.Some? && Ran(c, moves[..n]).tasks[i].at.Reading?
  }

  lemma {:induction false} HasReadNext(c: Config, moves: seq<Move>, i: nat)
    requires i < |c.tables| && moves != []
    ensures var before, last := moves[..|moves| - 1], moves[|moves| - 1];
            HasRead(c, moves, i) <==>
              HasRead(c, before, i) || (last.task == i && last.read.Some? && Ran(c, before).tasks[i].at.Reading?)
  {
    var before := moves[..|moves| - 1];
    assert forall n :: 0 <= n < |moves| ==> moves[..n] == before[..n];
    assert before[..|before|] == before;
    if HasRead(c, before, i) {
      var n :| 0 <= n < |before| && before[n].task == i && before[n].read.Some?
               && Ran(c, before[..n]).tasks[i].at.Reading?;
      assert moves[n] == before[n];
    }
  }

  /**
   A task has returned only where the flag is set, or it has nowhere to keep what it reads and has
   read nothing, or what it keeps never expires and it has read it. One whose table expires does
   not return, then, but for the flag.
   */
  lemma {:induction false} ReturnsOnlyWhen(c: Config, moves: seq<Move>, i: nat)
    requires i < |c.tables|
    ensures var s, lifetime := Ran(c, moves), c.tables[i].lifetime;
            var task := s.tasks[i];
            && (task.at.Returned? ==>
                  s.overflowed || lifetime.Off? || (lifetime.Forever? && HasRead(c, moves, i)))
            && (task.at.Telling? ==> s.overflowed)
            && (task.at.Loading? || task.at.Recording? ==> HasRead(c, moves, i))
            && (lifetime.Off? ==> task.begun == 0 && (task.at.Checking? || task.at.Choosing? || task.at.Returned?))
            && (lifetime.Forever? && HasRead(c, moves, i) ==>
                  task.at.Loading? || task.at.Recording? || task.at.Swapping? || task.at.Telling? || task.at.Returned?)
    decreases |moves|
  {
    if moves != [] {
      ReturnsOnlyWhen(c, moves[..|moves| - 1], i);
      HasReadNext(c, moves, i);
    }
  }

  /** How many steps a task takes at most until it begins another read, or is done, or sets the flag. */
  function UntilReading(at: Point): nat {
    match at
    case Reading => 6
    case Loading(_) => 5
    case Recording(_) => 4
    case Sleeping => 3
    case Checking => 2
    case _ => 1
  }

  lemma {:induction false} NearsReading(c: Config, s: State, moves: seq<Move>, i: nat)
    requires |s.tasks| == |c.tables| && i < |s.tasks| && !c.tables[i].lifetime.Off?
    requires !s.tasks[i].at.Telling? && !Run(c, s, moves).overflowed
    ensures var task := Run(c, s, moves).tasks[i];
            || task.begun > s.tasks[i].begun || task.at.Returned?
            || (task.begun == s.tasks[i].begun && !task.at.Telling?
                && StepsOf(moves, i) + UntilReading(task.at) <= UntilReading(s.tasks[i].at))
    decreases |moves|
  {
    if moves != [] {
      NearsReading(c, s, moves[..|moves| - 1], i);
    }
  }

  lemma {:induction false} RunOn(c: Config, s: State, before: seq<Move>, after: seq<Move>)
    requires |s.tasks| == |c.tables|
    ensures Run(c, s, before + after) == Run(c, Run(c, s, before), after)
    decreases |after|
  {
    if after == [] {
      assert before + after == before;
    } else {
      RunOn(c, s, before, after[..|after| - 1]);
      assert (before + after)[..|before + after| - 1] == before + after[..|after| - 1];
    }
  }

  /**
   While the flag is not set a task begins another read within six steps of its own, whether its
   last one failed or was kept; unless what it keeps never expires, and is read, and it has returned.
   */
  lemma {:induction false} GoesOnReading(c: Config, before: seq<Move>, after: seq<Move>, i: nat)
    requires i < |c.tables| && !c.tables[i].lifetime.Off?
    requires !Ran(c, before + after).overflowed && StepsOf(after, i) >= 6
    ensures || Ran(c, before + after).tasks[i].begun > Ran(c, before).tasks[i].begun
            || (c.tables[i].lifetime.Forever? && HasRead(c, before + after, i)
                && Ran(c, before + after).tasks[i].at.Returned?)
  {
    var s := Ran(c, before);
    RunOn(c, Start(c), before, after);
    if s.overflowed {
      FlagNeverClears(c, s, after);
    }
    ReturnsOnlyWhen(c, before, i);
    ReturnsOnlyWhen(c, before + after, i);
    NearsReading(c, s, after, i);
  }

  /** How many steps a task that has nothing more to read has left, at most. */
  function UntilDone(at: Point): nat {
    match at
    case Loading(_) => 4
    case Recording(_) => 3
    case Swapping => 2
    case Checking => 2
    case Returned => 0
    case _ => 1
  }

  predicate IsDone(lifetime: Lifetime, at: Point) {
    if lifetime.Off? then at.Checking? || at.Choosing? || at.Returned?
    else lifetime.Forever? && !at.Checking? && !at.Choosing? && !at.Reading? && !at.Sleeping?
  }

  lemma {:induction false} NearsDone(c: Config, s: State, moves: seq<Move>, i: nat)
    requires |s.tasks| == |c.tables| && i < |s.tasks| && IsDone(c.tables[i].lifetime, s.tasks[i].at)
    ensures var task := Run(c, s, moves).tasks[i];
            && IsDone(c.tables[i].lifetime, task.at) && task.begun == s.tasks[i].begun
            && UntilDone(task.at) <= Natural(UntilDone(s.tasks[i].at) - StepsOf(moves, i))
    decreases |moves|
  {
    if moves != [] {
      NearsDone(c, s, moves[..|moves| - 1], i);
    }
  }

  /** A task that has nowhere to keep a read, or has read what never expires, begins no read and returns. */
  lemma {:induction false} DoneTaskReturns(c: Config, before: seq<Move>, after: seq<Move>, i: nat)
    requires i < |c.tables|
    requires c.tables[i].lifetime.Off? || (c.tables[i].lifetime.Forever? && HasRead(c, before, i))
    ensures var task := Ran(c, before + after).tasks[i];
            && task.begun == Ran(c, before).tasks[i].begun
            && (StepsOf(after, i) >= 4 ==> task.at.Returned?)
  {
    RunOn(c, Start(c), before, after);
    ReturnsOnlyWhen(c, before, i);
    NearsDone(c, Ran(c, before), after, i);
  }

  ghost predicate AtLoading(c: Config, s: State, m: Move, weight: U64) {
    && |s.tasks| == |c.tables| && m.task < |s.tasks|
    && s.tasks[m.task].at == Loading(weight) && !s.overflowed
  }

  /** A task left to itself, whose table fits, does what one call of `Footprint.Fits` does. */
  lemma {:induction false} FittingAlone(c: Config, s: State, m: Move, weight: U64)
    requires AtLoading(c, s, m, weight) && !Over(c, s.weights[c.tables[m.task].name := weight])
    ensures var done := Run(c, s, [m] + [m]);
            && done.weights == s.weights[c.tables[m.task].name := weight]
            && !done.overflowed && done.warnings == s.warnings
            && done.tasks[m.task].at == if c.tables[m.task].lifetime.Lasting? then Sleeping else Returned
  {
    RunNext(c, s, [], m);
    RunNext(c, s, [m], m);
    assert [] + [m] == [m];
  }

  /** And one whose table does not: it records, sets the flag, tells the operator and returns. */
  lemma {:induction false} OverflowingAlone(c: Config, s: State, m: Move, weight: U64)
    requires AtLoading(c, s, m, weight) && Over(c, s.weights[c.tables[m.task].name := weight])
    ensures var done := Run(c, s, [m] + [m] + [m] + [m]);
            && done.weights == s.weights[c.tables[m.task].name := weight]
            && done.overflowed && done.warnings == s.warnings + 1
            && done.tasks[m.task].at == Returned
  {
    RunNext(c, s, [], m);
    RunNext(c, s, [m], m);
    RunNext(c, s, [m] + [m], m);
    RunNext(c, s, [m] + [m] + [m], m);
    assert [] + [m] == [m];
  }
}
