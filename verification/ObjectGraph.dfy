/** Objects, the pointers found in them, and reachability.

    A graph holds one sequence of words per object.  A word is either plain data
    or a value the collector takes for a pointer to some object.  Reachability is
    defined by explicit paths; the lemmas say that the reachable set is the least
    set that holds the sources and is closed under following pointers. */
module ObjectGraph {

  datatype Word = Data | Ptr(obj: nat)

  datatype Graph = Graph(objs: seq<seq<Word>>)

  /** Every pointer leads to an object of the graph. */
  predicate Resolved(g: Graph, words: seq<Word>) {
    forall i :: 0 <= i < |words| && words[i].Ptr? ==> words[i].obj < |g.objs|
  }

  predicate WellFormed(g: Graph) {
    forall o :: 0 <= o < |g.objs| ==> Resolved(g, g.objs[o])
  }

  predicate IsObject(g: Graph, o: nat) { o < |g.objs| }

  function AllObjects(g: Graph): set<nat> {
    set o: nat | 0 <= o < |g.objs| && IsObject(g, o)
  }

  predicate Edge(g: Graph, from: nat, to: nat) {
    from < |g.objs| && Ptr(to) in g.objs[from]
  }

  /** `via` lists the objects passed through, in order, on the way from a member of
      `sources` to `o`; the empty list stands for `o` being a source itself. */
  ghost predicate Path(g: Graph, sources: set<nat>, via: seq<nat>, o: nat)
    decreases |via|
  {
    && o < |g.objs|
    && if via == [] then o in sources
       else Path(g, sources, via[..|via| - 1], via[|via| - 1]) && Edge(g, via[|via| - 1], o)
  }

  ghost predicate Reachable(g: Graph, sources: set<nat>, o: nat) {
    exists via :: Path(g, sources, via, o)
  }

  ghost function ReachSet(g: Graph, sources: set<nat>): set<nat> {
    set o: nat | 0 <= o < |g.objs| && Reachable(g, sources, o)
  }

  /** No pointer leads out of `m`. */
  ghost predicate Closed(g: Graph, m: set<nat>) {
    forall o, t :: o in m && Edge(g, o, t) ==> t in m
  }

  ghost predicate PointedTo(g: Graph, m: set<nat>, t: nat) {
    exists o :: o in m && Edge(g, o, t)
  }

  /** Objects one pointer away from a member of `m`. */
  ghost function Successors(g: Graph, m: set<nat>): set<nat> {
    set t: nat | 0 <= t < |g.objs| && PointedTo(g, m, t)
  }

  lemma SourcesReachable(g: Graph, sources: set<nat>)
    requires sources <= AllObjects(g)
    ensures sources <= ReachSet(g, sources)
  {
    forall o | o in sources ensures o in ReachSet(g, sources) {
      assert Path(g, sources, [], o);
    }
  }

  lemma FollowPointer(g: Graph, sources: set<nat>, o: nat, t: nat)
    requires o in ReachSet(g, sources) && Edge(g, o, t) && t < |g.objs|
    ensures t in ReachSet(g, sources)
  {
    var via :| Path(g, sources, via, o);
    assert (via + [o])[..|via|] == via;
    assert Path(g, sources, via + [o], t);
  }

  lemma ReachSetClosed(g: Graph, sources: set<nat>)
    requires WellFormed(g)
    ensures Closed(g, ReachSet(g, sources))
  {
    forall o, t | o in ReachSet(g, sources) && Edge(g, o, t)
      ensures t in ReachSet(g, sources)
    {
      FollowPointer(g, sources, o, t);
    }
  }

  lemma {:induction false} PathStaysInside(g: Graph, sources: set<nat>, via: seq<nat>, o: nat, m: set<nat>)
    requires sources * AllObjects(g) <= m && Closed(g, m)
    requires Path(g, sources, via, o)
    ensures o in m
    decreases |via|
  {
    if via != [] {
      PathStaysInside(g, sources, via[..|via| - 1], via[|via| - 1], m);
    }
  }

  /** The reachable set is the least closed set holding the sources. */
  lemma ReachSetLeast(g: Graph, sources: set<nat>, m: set<nat>)
    requires sources * AllObjects(g) <= m && Closed(g, m)
    ensures ReachSet(g, sources) <= m
  {
    forall o | o in ReachSet(g, sources) ensures o in m {
      var via :| Path(g, sources, via, o);
      PathStaysInside(g, sources, via, o, m);
    }
  }

  lemma ObjectsReachable(g: Graph, sources: set<nat>)
    ensures sources * AllObjects(g) <= ReachSet(g, sources)
  {
    forall o | o in sources * AllObjects(g) ensures o in ReachSet(g, sources) {
      assert Path(g, sources, [], o);
    }
  }

  /** What two sets reach together is what each of them reaches. */
  lemma ReachUnion(g: Graph, a: set<nat>, b: set<nat>)
    requires WellFormed(g)
    ensures ReachSet(g, a + b) == ReachSet(g, a) + ReachSet(g, b)
  {
    ReachSetClosed(g, a);
    ReachSetClosed(g, b);
    ReachSetClosed(g, a + b);
    ObjectsReachable(g, a);
    ObjectsReachable(g, b);
    ObjectsReachable(g, a + b);
    ReachSetLeast(g, a + b, ReachSet(g, a) + ReachSet(g, b));
    ReachSetLeast(g, a, ReachSet(g, a + b));
    ReachSetLeast(g, b, ReachSet(g, a + b));
  }

  /** A closed set reaches nothing else. */
  lemma ReachOfClosed(g: Graph, m: set<nat>)
    requires Closed(g, m) && m <= AllObjects(g)
    ensures ReachSet(g, m) == m
  {
    SourcesReachable(g, m);
    ReachSetLeast(g, m, m);
  }

  /** Objects reachable by one or more pointers. */
  ghost function ReachPlus(g: Graph, objs: set<nat>): set<nat> {
    ReachSet(g, Successors(g, objs))
  }

  /** Everything pointed to from o is in m. */
  ghost predicate Traced(g: Graph, m: set<nat>, o: nat) {
    forall t :: Edge(g, o, t) ==> t in m
  }

  lemma ReachPlusOfMember(g: Graph, objs: set<nat>, o: nat, t: nat)
    requires WellFormed(g) && o in objs && Edge(g, o, t)
    ensures t in ReachPlus(g, objs)
  {
    assert PointedTo(g, objs, t) && t in Successors(g, objs);
    SourcesReachable(g, Successors(g, objs));
  }

  lemma ReachPlusStep(g: Graph, objs: set<nat>, o: nat, t: nat)
    requires WellFormed(g) && o in ReachPlus(g, objs) && Edge(g, o, t)
    ensures t in ReachPlus(g, objs)
  {
    FollowPointer(g, Successors(g, objs), o, t);
  }

  /** A closed set that has been traced from o absorbs what o reaches. */
  lemma TracedAbsorbs(g: Graph, m: set<nat>, objs: set<nat>)
    requires Closed(g, m) && forall o :: o in objs ==> Traced(g, m, o)
    ensures ReachPlus(g, objs) <= m
  {
    forall t | t in Successors(g, objs) ensures t in m {
      var o :| o in objs && Edge(g, o, t);
    }
    ReachSetLeast(g, Successors(g, objs), m);
  }

  lemma ReachPlusMonotone(g: Graph, a: set<nat>, b: set<nat>)
    requires WellFormed(g) && a <= b
    ensures ReachPlus(g, a) <= ReachPlus(g, b)
  {
    forall t | t in Successors(g, a) ensures t in ReachPlus(g, b) {
      var o :| o in a && Edge(g, o, t);
      ReachPlusOfMember(g, b, o, t);
    }
    ReachSetClosed(g, Successors(g, b));
    ReachSetLeast(g, Successors(g, a), ReachPlus(g, b));
  }

  /** What several objects reach is what one of them reaches. */
  lemma ReachPlusEach(g: Graph, objs: set<nat>, t: nat)
    requires WellFormed(g) && t in ReachPlus(g, objs)
    ensures exists d :: d in objs && t in ReachPlus(g, {d})
  {
    var each := set x | x in AllObjects(g) && exists d :: d in objs && x in ReachPlus(g, {d});
    forall x, y | x in each && Edge(g, x, y) ensures y in each {
      var d :| d in objs && x in ReachPlus(g, {d});
      ReachPlusStep(g, {d}, x, y);
    }
    forall x | x in Successors(g, objs) ensures x in each {
      var d :| d in objs && Edge(g, d, x);
      ReachPlusOfMember(g, {d}, d, x);
    }
    ReachSetLeast(g, Successors(g, objs), each);
  }
}
