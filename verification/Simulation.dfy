/**
 When one function does all that another does: a relation between their states that
 steps keep, in either direction, and what a caller then sees.
 */
module Simulation {
  import opened IR

  /**
   g returns whatever f returns; f returns whatever g returns, or gets stuck on the way
   there; and g gets stuck nowhere that f does not.
   */
  ghost predicate Preserves(m: Machine, f: Function, g: Function) {
    && (forall mem, path, ret, mem' :: MayReturn(m, f, mem, path, ret, mem') ==> MayReturn(m, g, mem, path, ret, mem'))
    && (forall mem, path, ret, mem' :: MayReturn(m, g, mem, path, ret, mem') ==>
          MayReturn(m, f, mem, path, ret, mem') || MayGetStuck(m, f, mem, path))
    && (forall mem, path :: MayGetStuck(m, g, mem, path) ==> MayGetStuck(m, f, mem, path))
  }

  lemma PreservesItself(m: Machine, f: Function)
    ensures Preserves(m, f, f)
  {
  }

  lemma PreservesThen(m: Machine, f: Function, g: Function, h: Function)
    requires Preserves(m, f, g) && Preserves(m, g, h)
    ensures Preserves(m, f, h)
  {
    hide MayReturn, MayGetStuck;
  }

  // ----- Simulation

  type Relation = (State, State) -> bool

  /** s' is further on in the block where s was. */
  predicate Ahead(s: State, s': State) {
    s'.path == s.path && s'.pc > s.pc
  }

  /** A step of f is matched by one of g, or by none. */
  ghost predicate Follows(m: Machine, g: Function, r: Relation, s: State, s': State, t: State) {
    (Ahead(s, s') && r(s', t)) || exists t' :: Step(m, g, t, t') && r(s', t')
  }

  /** f can match a step of g, or come nearer to it. */
  ghost predicate Precedes(m: Machine, f: Function, r: Relation, s: State, t: State, t': State) {
    exists s' :: Step(m, f, s, s') && (r(s', t') || (Ahead(s, s') && r(s', t)))
  }

  /**
   Related states are at most so far in their block, and cannot be told apart from outside once they
   have returned.
   */
  ghost predicate Alike(f: Function, s: State, t: State) {
    && s.path != [] && Last(s.path) in f.blocks && s.pc <= |f.blocks[Last(s.path)]|
    && t.path == s.path && t.ret == s.ret && (s.ret.Some? ==> t.mem == s.mem)
  }

  ghost predicate Simulates(m: Machine, f: Function, g: Function, r: Relation) {
    && (forall s :: Initial(f, s) <==> Initial(g, s))
    && (forall s | Initial(f, s) :: r(s, s))
    && (forall s, t | r(s, t) :: Alike(f, s, t))
    && (forall s, s', t | r(s, t) && Step(m, f, s, s') :: Follows(m, g, r, s, s', t))
    && (forall s, s1, t, t' | r(s, t) && Step(m, g, t, t') && Step(m, f, s, s1) :: Precedes(m, f, r, s, t, t'))
  }

  lemma {:induction false} Forwards(m: Machine, f: Function, g: Function, r: Relation, run: seq<State>)
    returns (run': seq<State>)
    requires Simulates(m, f, g, r) && IsRun(m, f, run)
    ensures IsRun(m, g, run') && run'[0].mem == run[0].mem && r(Last(run), Last(run'))
    decreases |run|
  {
    hide Step, Initial, Alike;
    if |run| == 1 {
      run' := run;
    } else {
      RunShrinks(m, f, run);
      var before := run[..|run| - 1];
      run' := Forwards(m, f, g, r, before);
      assert Follows(m, g, r, Last(before), Last(run), Last(run'));
      if !(Ahead(Last(before), Last(run)) && r(Last(run), Last(run'))) {
        var t' :| Step(m, g, Last(run'), t') && r(Last(run), t');
        RunExtends(m, g, run', t');
        run' := run' + [t'];
      }
    }
  }

  lemma PathGrows(m: Machine, f: Function, s: State, s': State)
    requires Step(m, f, s, s')
    ensures s.path <= s'.path
  {
  }

  /** f catches up with a step of g, or gets stuck trying. */
  lemma {:induction false} CatchesUp(m: Machine, f: Function, g: Function, r: Relation, run: seq<State>, t: State,
                                     t': State)
    returns (run': seq<State>)
    requires Simulates(m, f, g, r) && IsRun(m, f, run) && r(Last(run), t) && Step(m, g, t, t')
    ensures IsRun(m, f, run') && run'[0].mem == run[0].mem
    ensures r(Last(run'), t') || (Stuck(m, f, Last(run')) && Last(run').path <= t'.path)
    decreases |f.blocks[Last(Last(run).path)]| - Last(run).pc
  {
    hide Step, Initial;
    var s := Last(run);
    assert Alike(f, s, t);
    if Stuck(m, f, s) {
      PathGrows(m, g, t, t');
      return run;
    }
    StepsTogether(m, f, g, r, s, t, t');
    var s1 :| Step(m, f, s, s1);
    assert Precedes(m, f, r, s, t, t');
    var s' :| Step(m, f, s, s') && (r(s', t') || (Ahead(s, s') && r(s', t)));
    RunExtends(m, f, run, s');
    run' := run + [s'];
    if !r(s', t') {
      assert Alike(f, s', t);
      run' := CatchesUp(m, f, g, r, run', t, t');
    }
  }

  lemma StepsTogether(m: Machine, f: Function, g: Function, r: Relation, s: State, t: State, t': State)
    requires Alike(f, s, t) && Step(m, g, t, t') && !Stuck(m, f, s)
    ensures exists s1 :: Step(m, f, s, s1)
  {
  }

  lemma {:induction false} Backwards(m: Machine, f: Function, g: Function, r: Relation, run': seq<State>)
    returns (run: seq<State>)
    requires Simulates(m, f, g, r) && IsRun(m, g, run')
    ensures IsRun(m, f, run) && run[0].mem == run'[0].mem
    ensures r(Last(run), Last(run')) || (Stuck(m, f, Last(run)) && Last(run).path <= Last(run').path)
    decreases |run'|
  {
    hide Step, Initial, Alike, Stuck;
    if |run'| == 1 {
      run := run';
    } else {
      RunShrinks(m, g, run');
      var before := run'[..|run'| - 1];
      run := Backwards(m, f, g, r, before);
      PathGrows(m, g, Last(before), Last(run'));
      if r(Last(run), Last(before)) {
        run := CatchesUp(m, f, g, r, run, Last(before), Last(run'));
      }
    }
  }

  /** Where g is stuck, so is f, now or further on in the block. */
  lemma {:induction false} StuckToo(m: Machine, f: Function, g: Function, r: Relation, run: seq<State>, t: State)
    returns (run': seq<State>)
    requires Simulates(m, f, g, r) && IsRun(m, f, run) && r(Last(run), t) && Stuck(m, g, t)
    ensures IsRun(m, f, run') && run'[0].mem == run[0].mem && Stuck(m, f, Last(run')) && Last(run').path == t.path
    decreases |f.blocks[Last(Last(run).path)]| - Last(run).pc
  {
    hide Step, Initial;
    var s := Last(run);
    assert Alike(f, s, t);
    run' := run;
    if !Stuck(m, f, s) {
      var s' :| Step(m, f, s, s');
      assert Follows(m, g, r, s, s', t);
      RunExtends(m, f, run, s');
      assert Ahead(s, s') && r(s', t);
      assert Alike(f, s', t);
      run' := StuckToo(m, f, g, r, run + [s'], t);
    }
  }

  lemma SimulationPreserves(m: Machine, f: Function, g: Function, r: Relation)
    requires Simulates(m, f, g, r)
    ensures Preserves(m, f, g)
  {
    hide Step, Initial, Stuck;
    forall mem, path, ret, mem' | MayReturn(m, f, mem, path, ret, mem')
      ensures MayReturn(m, g, mem, path, ret, mem')
    {
      var run: seq<State> :| IsRun(m, f, run) && run[0].mem == mem
                 && Last(run).path == path && Last(run).ret == Some(ret) && Last(run).mem == mem';
      var run' := Forwards(m, f, g, r, run);
      assert Alike(f, Last(run), Last(run'));
    }
    forall mem, path, ret, mem' | MayReturn(m, g, mem, path, ret, mem')
      ensures MayReturn(m, f, mem, path, ret, mem') || MayGetStuck(m, f, mem, path)
    {
      var run': seq<State> :| IsRun(m, g, run') && run'[0].mem == mem
                  && Last(run').path == path && Last(run').ret == Some(ret) && Last(run').mem == mem';
      var run := Backwards(m, f, g, r, run');
      assert r(Last(run), Last(run')) ==> Alike(f, Last(run), Last(run'));
    }
    forall mem, path | MayGetStuck(m, g, mem, path)
      ensures MayGetStuck(m, f, mem, path)
    {
      var run': seq<State> :| IsRun(m, g, run') && run'[0].mem == mem && Stuck(m, g, Last(run'))
         && Last(run').path <= path;
      var run := Backwards(m, f, g, r, run');
      if r(Last(run), Last(run')) {
        run := StuckToo(m, f, g, r, run, Last(run'));
      }
    }
  }
}
