/** Marking from the dead objects with ordered finalizers, one after the other.

    When marking from an object overflows the mark stack, the object is marked itself and so
    given up for this time.  What was marked before decides whether that happens, so the
    order of the walk can matter; the lemmas say when it does not. */
module OrderedRuns {
  import opened Locks
  import opened ObjectGraph
  import opened MarkStack
  import opened Tracing

  /** The stack size, the mark set, and the objects given up so far. */
  datatype Stage = Stage(size: nat, marks: set<nat>, given: set<nat>)

  ghost predicate StageOk(g: Graph, s: Stage) {
    && WellFormed(g) && INITIAL_MARK_STACK_SIZE <= s.size
    && s.given <= s.marks <= AllObjects(g) && Closed(g, s.marks)
  }

  /** One object of the walk.  The recovery from an overflow may enlarge the stack. */
  ghost predicate Next(g: Graph, s: Stage, o: nat, t: Stage)
    requires StageOk(g, s) && o < |g.objs|
  {
    if o in s.marks then t == s
    else if !Overflows(g, s.size, s.marks, o) then t == s.(marks := s.marks + ReachPlus(g, {o}))
    else s.size <= t.size && t.marks == s.marks + ReachPlus(g, {o}) + {o} && t.given == s.given + {o}
  }

  ghost predicate IsRun(g: Graph, walk: seq<nat>, run: seq<Stage>) {
    |run| == |walk| + 1 && forall k: nat :: Open(k) ==> EachNext(g, walk, run)
  }

  ghost predicate EachNext(g: Graph, walk: seq<nat>, run: seq<Stage>) {
    && |run| == |walk| + 1 && (forall i :: 0 <= i < |walk| ==> walk[i] < |g.objs|)
    && (forall i :: 0 <= i < |run| ==> StageOk(g, run[i]))
    && (forall i :: 0 <= i < |walk| ==> Next(g, run[i], walk[i], run[i + 1]))
  }

  function Last(run: seq<Stage>): Stage
    requires run != []
  {
    run[|run| - 1]
  }

  ghost function DeadOf(walk: seq<nat>, m: set<nat>): set<nat> { set o | o in walk && o !in m }

  lemma NextStage(g: Graph, s: Stage, o: nat, t: Stage)
    requires StageOk(g, s) && o < |g.objs| && Next(g, s, o, t)
    ensures StageOk(g, t) && s.marks <= t.marks && s.given <= t.given && s.size <= t.size && Traced(g, t.marks, o)
    ensures t.marks <= s.marks + ReachPlus(g, {o}) + t.given && t.given <= s.given + {o}
  {
    if o !in s.marks {
      SelfAndPlusClosed(g, s.marks, o);
    }
  }

  lemma SelfAndPlusClosed(g: Graph, m: set<nat>, o: nat)
    requires WellFormed(g) && Closed(g, m) && o < |g.objs|
    ensures Closed(g, m + ReachPlus(g, {o})) && Closed(g, m + ReachPlus(g, {o}) + {o})
    ensures ReachPlus(g, {o}) <= AllObjects(g) && forall t :: Edge(g, o, t) ==> t in ReachPlus(g, {o})
  {
    forall t | Edge(g, o, t) ensures t in ReachPlus(g, {o}) {
      ReachPlusOfMember(g, {o}, o, t);
    }
    forall x, t | x in ReachPlus(g, {o}) && Edge(g, x, t) ensures t in ReachPlus(g, {o}) {
      ReachPlusStep(g, {o}, x, t);
    }
  }

  /** The first stage of a run and the objects of its walk are in order. */
  ghost predicate RunStarts(g: Graph, walk: seq<nat>, run: seq<Stage>) {
    run != [] && StageOk(g, run[0]) && forall i :: 0 <= i < |walk| ==> walk[i] < |g.objs|
  }

  lemma RunExtends(g: Graph, walk: seq<nat>, run: seq<Stage>, o: nat, t: Stage)
    requires IsRun(g, walk, run) && o < |g.objs| && StageOk(g, Last(run)) && Next(g, Last(run), o, t)
    ensures IsRun(g, walk + [o], run + [t])
  {
    assert Open(0);
    NextStage(g, Last(run), o, t);
  }

  /** Where a run has come to. */
  ghost predicate RunFacts(g: Graph, walk: seq<nat>, first: Stage, s: Stage, dead: set<nat>) {
    && first.marks <= s.marks <= first.marks + ReachPlus(g, dead) + s.given
    && first.given <= s.given <= first.given + dead && first.size <= s.size
    && forall i :: 0 <= i < |walk| ==> Traced(g, s.marks, walk[i])
  }

  lemma RunStep(g: Graph, walk: seq<nat>, run: seq<Stage>, n: nat, o: nat)
    requires IsRun(g, walk, run) && n < |walk| && o == walk[n]
    ensures StageOk(g, run[n]) && StageOk(g, run[n + 1]) && o < |g.objs|
    ensures Next(g, run[n], o, run[n + 1])
  {
    assert Open(0);
  }

  lemma {:induction false} RunMarksTo(g: Graph, walk: seq<nat>, run: seq<Stage>, dead: set<nat>, n: nat)
    requires IsRun(g, walk, run) && n <= |walk|
    requires forall i :: 0 <= i < |walk| && walk[i] !in run[0].marks ==> walk[i] in dead
    ensures RunFacts(g, walk[..n], run[0], run[n], dead)
  {
    if n == 0 {
      assert StageOk(g, run[0]) by { assert Open(0); }
    } else {
      var k := n - 1;
      RunMarksTo(g, walk, run, dead, k);
      FactsNext(g, walk, run, dead, k);
    }
  }

  lemma FactsNext(g: Graph, walk: seq<nat>, run: seq<Stage>, dead: set<nat>, k: nat)
    requires IsRun(g, walk, run) && k < |walk| && RunFacts(g, walk[..k], run[0], run[k], dead)
    requires walk[k] !in run[0].marks ==> walk[k] in dead
    ensures RunFacts(g, walk[..k + 1], run[0], run[k + 1], dead)
  {
    RunStep(g, walk, run, k, walk[k]);
    FactsStep(g, walk[..k], run[0], run[k], walk[k], run[k + 1], dead);
    assert walk[..k] + [walk[k]] == walk[..k + 1];
  }

  lemma FactsStep(g: Graph, walk: seq<nat>, first: Stage, s: Stage, o: nat, t: Stage, dead: set<nat>)
    requires RunFacts(g, walk, first, s, dead) && StageOk(g, s) && o < |g.objs| && Next(g, s, o, t)
    requires o !in first.marks ==> o in dead
    ensures RunFacts(g, walk + [o], first, t, dead)
  {
    NextStage(g, s, o, t);
    if o in dead {
      ReachPlusMonotone(g, {o}, dead);
    } else {
      assert t == s;
    }
  }

  /** Over a whole walk: exactly what the dead objects lead to and the objects given up, some
      of the dead, get marked in addition, and all dead objects have been marked from. */
  lemma RunMarks(g: Graph, walk: seq<nat>, run: seq<Stage>)
    requires IsRun(g, walk, run)
    ensures var first, last, dead := run[0], Last(run), DeadOf(walk, run[0].marks);
      && last.marks == first.marks + ReachPlus(g, dead) + last.given
      && first.given <= last.given <= first.given + dead && first.size <= last.size
      && (forall o :: o in dead ==> Traced(g, last.marks, o)) && StageOk(g, last)
  {
    assert Open(0);
    var dead := DeadOf(walk, run[0].marks);
    RunMarksTo(g, walk, run, dead, |walk|);
    assert walk[..|walk|] == walk;
    TracedAbsorbs(g, Last(run).marks, dead);
  }

  /** Marking from the objects of the walk, in this order, does not overflow. */
  ghost predicate NeverOverflows(g: Graph, size: nat, m: set<nat>, walk: seq<nat>)
    requires WellFormed(g) && m <= AllObjects(g) && INITIAL_MARK_STACK_SIZE <= size
    requires forall i :: 0 <= i < |walk| ==> walk[i] < |g.objs|
    decreases |walk|
  {
    walk == [] ||
    if walk[0] in m then NeverOverflows(g, size, m, walk[1..])
    else !Overflows(g, size, m, walk[0]) && NeverOverflows(g, size, m + ReachPlus(g, {walk[0]}), walk[1..])
  }

  /** Nothing is given up exactly if no object of the walk, in its turn, overflows. */
  lemma {:induction false} GivenUpIff(g: Graph, walk: seq<nat>, run: seq<Stage>)
    requires IsRun(g, walk, run)
    ensures RunStarts(g, walk, run)
    ensures Last(run).given == run[0].given <==> NeverOverflows(g, run[0].size, run[0].marks, walk)
    decreases |walk|
  {
    assert Open(0);
    if walk != [] {
      assert IsRun(g, walk[1..], run[1..]);
      GivenUpIff(g, walk[1..], run[1..]);
      RunMarks(g, walk[1..], run[1..]);
      assert Next(g, run[0], walk[0], run[1]);
    }
  }

  /** In turn i, marking from an object that is not marked by then overflows. */
  ghost predicate OverflowsInTurn(g: Graph, walk: seq<nat>, run: seq<Stage>, i: nat) {
    && i < |walk| && i < |run| && StageOk(g, run[i]) && walk[i] < |g.objs|
    && walk[i] !in run[i].marks && Overflows(g, run[i].size, run[i].marks, walk[i])
  }

  ghost function Turns(g: Graph, walk: seq<nat>, run: seq<Stage>): set<nat> {
    set i: nat | i < |walk| && OverflowsInTurn(g, walk, run, i)
  }

  /** An object is given up exactly if it overflows in its turn. */
  lemma GivenInTurn(g: Graph, walk: seq<nat>, run: seq<Stage>, o: nat)
    requires IsRun(g, walk, run) && run[0].given == {}
    ensures o in Last(run).given <==> exists i: nat :: OverflowsInTurn(g, walk, run, i) && walk[i] == o
  {
    TurnsGive(g, walk, run);
    GivenBefore(run, walk, Turns(g, walk, run), o, |walk|);
    assert forall i: nat :: OverflowsInTurn(g, walk, run, i) <==> i in Turns(g, walk, run);
  }

  lemma {:induction false} GivenBefore(run: seq<Stage>, walk: seq<nat>, turns: set<nat>, o: nat, n: nat)
    requires n <= |walk| && |run| == |walk| + 1 && run[0].given == {}
    requires forall i: nat :: i < |walk| ==> run[i + 1].given == run[i].given + if i in turns then {walk[i]} else {}
    ensures o in run[n].given <==> exists i :: i in turns && i < n && walk[i] == o
  {
    if n > 0 {
      GivenBefore(run, walk, turns, o, n - 1);
      assert run[n - 1 + 1] == run[n];
    }
  }

  lemma TurnsGive(g: Graph, walk: seq<nat>, run: seq<Stage>)
    requires IsRun(g, walk, run)
    ensures forall i: nat :: i < |walk| ==>
      run[i + 1].given == run[i].given + if i in Turns(g, walk, run) then {walk[i]} else {}
  {
    forall i: nat | i < |walk|
      ensures run[i + 1].given == run[i].given + if i in Turns(g, walk, run) then {walk[i]} else {}
    {
      TurnGives(g, walk, run, i);
    }
  }

  lemma TurnGives(g: Graph, walk: seq<nat>, run: seq<Stage>, n: nat)
    requires IsRun(g, walk, run) && n < |walk|
    ensures run[n + 1].given == run[n].given + if OverflowsInTurn(g, walk, run, n) then {walk[n]} else {}
  {
    RunStep(g, walk, run, n, walk[n]);
  }

  /** If fewer unmarked objects have words than the stack has room for, no order of the walk
      overflows. */
  lemma {:induction false} EnoughRoom(g: Graph, size: nat, m: set<nat>, walk: seq<nat>)
    requires WellFormed(g) && m <= AllObjects(g) && INITIAL_MARK_STACK_SIZE <= size && |Unscanned(g, m)| < size
    requires forall i :: 0 <= i < |walk| ==> walk[i] < |g.objs|
    ensures NeverOverflows(g, size, m, walk)
    decreases |walk|
  {
    if walk != [] {
      NoOverflow(g, size, m, walk[0]);
      UnscannedShrinks(g, m, m + ReachPlus(g, {walk[0]}));
      EnoughRoom(g, size, if walk[0] in m then m else m + ReachPlus(g, {walk[0]}), walk[1..]);
    }
  }

  // A walk whose outcome depends on its order

  /** From the top of the comb one gets to the objects from 2 on. */
  lemma CombReach(n: nat, o: nat)
    requires o < 2
    ensures 2 in ReachPlus(Comb(n), {o}) && 0 !in ReachPlus(Comb(n), {o}) && 1 !in ReachPlus(Comb(n), {o})
  {
    var g := Comb(n);
    assert Ptr(2) in g.objs[o];
    ReachPlusOfMember(g, {o}, o, 2);
    var below := set x | x in AllObjects(g) && 2 <= x;
    forall x, t | x in below && Edge(g, x, t) ensures t in below {
      assert g.objs[x] == CombWords(n, x);
    }
    forall t | t in Successors(g, {o}) ensures t in below {
      assert Edge(g, o, t) && g.objs[o] == CombWords(n, o);
    }
    ReachSetLeast(g, Successors(g, {o}), below);
  }

  /** The object visited first is given up, and it alone. */
  lemma FirstIsGivenUp(size: nat, o: nat, run: seq<Stage>)
    requires INITIAL_MARK_STACK_SIZE <= size && o < 2
    requires IsRun(Comb(size), [o, 1 - o], run) && run[0] == Stage(size, {}, {})
    ensures Last(run).given == {o}
  {
    CombOverflows(size, o);
    CombReach(size, o);
    CombTop(size, o);
    OnlyFirstGiven(Comb(size), size, o, 1 - o, run);
  }

  lemma CombTop(n: nat, o: nat)
    requires o < 2
    ensures |Comb(n).objs| > 2 && Comb(n).objs[o] == Comb(n).objs[1 - o] == [Ptr(2)]
  {
  }

  /** The same for any graph with two such objects. */
  lemma OnlyFirstGiven(g: Graph, size: nat, o: nat, p: nat, run: seq<Stage>)
    requires IsRun(g, [o, p], run) && run[0] == Stage(size, {}, {}) && o < |g.objs| && p < |g.objs|
    requires WellFormed(g) && INITIAL_MARK_STACK_SIZE <= size && Overflows(g, size, {}, o)
    requires 2 in ReachPlus(g, {o}) && g.objs[p] == [Ptr(2)]
    ensures Last(run).given == {o}
  {
    FirstGiven(g, size, o, p, run);
    SecondKept(g, o, p, run);
  }

  lemma FirstGiven(g: Graph, size: nat, o: nat, p: nat, run: seq<Stage>)
    requires IsRun(g, [o, p], run) && run[0] == Stage(size, {}, {}) && o < |g.objs|
    requires WellFormed(g) && INITIAL_MARK_STACK_SIZE <= size && Overflows(g, size, {}, o) && 2 in ReachPlus(g, {o})
    ensures run[1].given == {o} && 2 in run[1].marks
  {
    RunStep(g, [o, p], run, 0, o);
  }

  lemma SecondKept(g: Graph, o: nat, p: nat, run: seq<Stage>)
    requires IsRun(g, [o, p], run) && p < |g.objs| && g.objs[p] == [Ptr(2)] && 2 in run[1].marks
    ensures run[2].given == run[1].given
  {
    RunStep(g, [o, p], run, 1, p);
    if p !in run[1].marks {
      IdleFrom(g, run[1].size, run[1].marks, p);
    }
  }
}
