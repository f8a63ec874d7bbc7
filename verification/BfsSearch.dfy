/**
 * The three searches of `bfs.cpp` as sequences of parallel rounds. A round is any complete run of
 * the push or pull transition system; the main thread joins, rebuilds the frontier and goes on.
 */
module BfsSearch {
  import opened Sums
  import opened Graphs
  import opened PushRounds
  import opened PullPasses

  datatype Instance = Instance(n: nat, threads: nat, es: seq<Edge>, out: Csr, inn: Csr, start: nat)

  /** The loaded graph and a start vertex inside it. */
  ghost predicate InstanceOk(g: Instance) {
    && g.threads > 0 && g.start < g.n && InRange(g.es, g.n)
    && Represents(g.out, g.n, g.es)
  }

  /** The pull loops also need the in-rows, which are only built for a symmetric graph. */
  ghost predicate InRowsLoaded(g: Instance) {
    Represents(g.inn, g.n, Reverse(g.es))
  }

  // ---- push ----

  /** The state of the main thread at the head of the push loop. */
  datatype Head = Head(visited: seq<nat>, frontier: seq<nat>, iterations: nat)

  ghost function StartVisited(g: Instance): seq<nat>
    requires g.start < g.n
  {
    seq(g.n, _ => 0)[g.start := 1]
  }

  ghost function PushStart(g: Instance): Head
    requires g.start < g.n
  {
    Head(StartVisited(g), [g.start], 0)
  }

  ghost function RoundEnv(g: Instance, h: Head, plainTest: bool): Env {
    Env(g.n, g.threads, g.es, g.out, h.frontier, h.visited, plainTest)
  }

  /**
   * One loop iteration. The new frontier may list what the workers buffered in any order: the
   * transfers of `bfs_push` concatenate the buffers, the concurrent vector of `bfs_pushpull`
   * interleaves them.
   */
  ghost predicate PushRoundBy(g: Instance, plainTest: bool, h: Head, h': Head, tr: seq<State>) {
    var c := RoundEnv(g, h, plainTest);
    && h.frontier != []
    && EnvOk(c) && Trace(c, tr) && Done(tr[|tr|-1])
    && h'.visited == tr[|tr|-1].visited
    && multiset(h'.frontier) == multiset(Concat(tr[|tr|-1].buffers))
    && h'.iterations == h.iterations + 1
  }

  ghost predicate PushRound(g: Instance, plainTest: bool, h: Head, h': Head) {
    exists tr :: PushRoundBy(g, plainTest, h, h', tr)
  }

  ghost predicate PushRun(g: Instance, plainTest: bool, hs: seq<Head>) {
    && g.start < g.n
    && |hs| > 0 && hs[0] == PushStart(g)
    && forall i | 0 <= i < |hs| - 1 :: PushRound(g, plainTest, hs[i], hs[i+1])
  }

  /** At this head the visited vertices are the ball, and the frontier lists the level, each vertex once. */
  ghost predicate AtLevel(g: Instance, h: Head, k: nat) {
    && Flags(h.visited, g.n)
    && VisitedSet(h.visited) == Ball(g.es, g.start, k)
    && multiset(h.frontier) == multiset(Level(g.es, g.start, k))
  }

  lemma FrontierElements(s: seq<nat>, level: set<nat>, n: nat)
    requires multiset(s) == multiset(level) && forall v | v in level :: v < n
    ensures Elements(s) == level && Below(s, n) && Distinct(s)
    ensures s == [] <==> level == {}
  {
    DistinctIffMultiset(s);
    forall x | x in s ensures x in level { assert x in multiset(s); }
    forall x | x in level ensures x in s { assert x in multiset(level); }
    forall i | 0 <= i < |s| ensures s[i] < n { assert s[i] in s; }
    assert |multiset(s)| == |s| && |multiset(level)| == |level|;
  }

  lemma StartIsLevelZero(g: Instance)
    requires InstanceOk(g)
    ensures AtLevel(g, PushStart(g), 0)
  {
  }

  lemma LevelEnvOk(g: Instance, h: Head, k: nat, plainTest: bool)
    requires InstanceOk(g) && AtLevel(g, h, k)
    ensures EnvOk(RoundEnv(g, h, plainTest))
    ensures Elements(h.frontier) == Level(g.es, g.start, k) && Distinct(h.frontier)
    ensures h.frontier == [] <==> Level(g.es, g.start, k) == {}
  {
    BallInRange(g.es, g.start, k, g.n);
    FrontierElements(h.frontier, Level(g.es, g.start, k), g.n);
  }

  lemma LevelBound(g: Instance, k: nat)
    requires InstanceOk(g) && Level(g.es, g.start, k) != {}
    ensures k < g.n
  {
    hide Level;
    LevelIndexBound(g.es, g.start, k, g.n);
  }

  /** A completed round leads from one level to the next, in whatever order its buffers are joined. */
  lemma DoneReachesNextLevel(g: Instance, plainTest: bool, h: Head, h': Head, s: State, j: nat, k: nat)
    requires InstanceOk(g) && k == j + 1 && AtLevel(g, h, j)
    requires Inv(RoundEnv(g, h, plainTest), s) && Done(s)
    requires h'.visited == s.visited && multiset(h'.frontier) == multiset(Concat(s.buffers))
    ensures AtLevel(g, h', k)
  {
    LevelEnvOk(g, h, j, plainTest);
    DoneResult(RoundEnv(g, h, plainTest), s);
    LevelStep(g.es, g.start, j, k);
  }

  lemma RoundReachesNextLevel(g: Instance, plainTest: bool, h: Head, h': Head, j: nat, k: nat)
    requires InstanceOk(g) && k == j + 1 && AtLevel(g, h, j) && PushRound(g, plainTest, h, h')
    ensures AtLevel(g, h', k)
  {
    var tr :| PushRoundBy(g, plainTest, h, h', tr);
    TraceInv(RoundEnv(g, h, plainTest), tr, |tr| - 1);
    DoneReachesNextLevel(g, plainTest, h, h', tr[|tr|-1], j, k);
  }

  /** At the head of round `k` the frontier lists exactly the vertices at distance `k`, each once. */
  lemma {:induction false} PushHeads(g: Instance, plainTest: bool, hs: seq<Head>, k: nat)
    requires InstanceOk(g) && PushRun(g, plainTest, hs) && k < |hs|
    ensures AtLevel(g, hs[k], k) && hs[k].iterations == k
    ensures Distinct(hs[k].frontier)
    ensures forall v :: v in hs[k].frontier <==> AtDistance(g.es, g.start, v, k)
    ensures k > 0 ==> Level(g.es, g.start, k - 1) != {}
  {
    if k == 0 {
      StartIsLevelZero(g);
    } else {
      PushHeads(g, plainTest, hs, k - 1);
      assert PushRound(g, plainTest, hs[k-1], hs[k]);
      RoundReachesNextLevel(g, plainTest, hs[k-1], hs[k], k - 1, k);
      LevelEnvOk(g, hs[k-1], k - 1, plainTest);
    }
    LevelEnvOk(g, hs[k], k, plainTest);
    forall v: nat ensures v in hs[k].frontier <==> AtDistance(g.es, g.start, v, k) {
      LevelIsDistance(g.es, g.start, k, v);
      assert v in hs[k].frontier <==> v in Elements(hs[k].frontier);
    }
  }

  /** The count printed at the end of `bfs_push` is the number of visited vertices. */
  lemma {:induction false} VisitedCount(visited: seq<nat>)
    requires forall v | 0 <= v < |visited| :: visited[v] <= 1
    ensures Sum(visited) == |VisitedSet(visited)|
  {
    if |visited| > 0 {
      var m := |visited| - 1;
      VisitedCount(visited[..m]);
      var rest := VisitedSet(visited[..m]);
      assert VisitedSet(visited) == if visited[m] != 0 then rest + {m} else rest;
    }
  }

  lemma SearchEnd(g: Instance, h: Head, j: nat, k: nat)
    requires InstanceOk(g) && k == j + 1 && AtLevel(g, h, k) && h.frontier == []
    requires Level(g.es, g.start, j) != {}
    ensures forall v :: v in VisitedSet(h.visited) <==> Reachable(g.es, g.start, v)
    ensures Flags(h.visited, g.n) && Sum(h.visited) == |VisitedSet(h.visited)|
    ensures Eccentricity(g.es, g.start, j)
  {
    hide Ball, Level, Reachable, Eccentricity, InstanceOk;
    LevelEnvOk(g, h, k, true);
    forall v: nat ensures v in VisitedSet(h.visited) <==> Reachable(g.es, g.start, v) {
      FinalBallIsReachable(g.es, g.start, k, v);
    }
    VisitedCount(h.visited);
    LastLevelIsEccentricity(g.es, g.start, k);
  }

  /**
   * The whole push search, for every interleaving in every round: it ends with exactly the reachable
   * vertices visited, after one more round than the eccentricity of the start vertex.
   */
  lemma PushSearch(g: Instance, plainTest: bool, hs: seq<Head>)
    requires InstanceOk(g) && PushRun(g, plainTest, hs) && hs[|hs|-1].frontier == []
    ensures var h := hs[|hs|-1];
      && (forall v :: v in VisitedSet(h.visited) <==> Reachable(g.es, g.start, v))
      && Sum(h.visited) == |VisitedSet(h.visited)|
      && h.iterations > 0 && Eccentricity(g.es, g.start, h.iterations - 1)
  {
    hide Ball, Level;
    var k := |hs| - 1;
    PushHeads(g, plainTest, hs, k);
    SearchEnd(g, hs[k], k - 1, k);
  }

  /** No run has more rounds than there are vertices. */
  lemma PushRoundsBounded(g: Instance, plainTest: bool, hs: seq<Head>)
    requires InstanceOk(g) && PushRun(g, plainTest, hs)
    ensures |hs| <= g.n + 1
  {
    hide Ball, Level;
    var k := |hs| - 1;
    if k > 0 {
      PushHeads(g, plainTest, hs, k);
      LevelIndexBound(g.es, g.start, k - 1, g.n);
    }
  }

  /** From every reachable state of a round, some continuation completes it. */
  lemma {:induction false} CompleteRun(c: Env, tr: seq<State>) returns (full: seq<State>)
    requires EnvOk(c) && Trace(c, tr)
    ensures Trace(c, full) && Done(full[|full|-1])
    decreases Remaining(c, tr[|tr|-1])
  {
    var s := tr[|tr|-1];
    TraceInv(c, tr, |tr| - 1);
    if Done(s) {
      full := tr;
    } else {
      NeverStuck(c, s);
      var s' :| Next(c, s, s');
      StepsDecrease(c, s, s');
      ExtendTrace(c, tr, s');
      full := CompleteRun(c, tr + [s']);
    }
  }

  /** While the frontier is not empty, another round can be run. */
  lemma AnotherRound(g: Instance, plainTest: bool, h: Head, k: nat) returns (h': Head)
    requires InstanceOk(g) && AtLevel(g, h, k) && h.frontier != []
    ensures PushRound(g, plainTest, h, h')
  {
    LevelEnvOk(g, h, k, plainTest);
    var c := RoundEnv(g, h, plainTest);
    var tr := CompleteRun(c, [Start(c)]);
    var last := tr[|tr|-1];
    h' := Head(last.visited, Concat(last.buffers), h.iterations + 1);
    assert PushRoundBy(g, plainTest, h, h', tr);
  }

  lemma ExtendRun(g: Instance, plainTest: bool, hs: seq<Head>, h': Head)
    requires PushRun(g, plainTest, hs) && PushRound(g, plainTest, hs[|hs|-1], h')
    ensures PushRun(g, plainTest, hs + [h'])
  {
    var hs' := hs + [h'];
    forall i | 0 <= i < |hs'| - 1 ensures PushRound(g, plainTest, hs'[i], hs'[i+1]) {
      assert i < |hs| - 1 ==> hs'[i] == hs[i] && hs'[i+1] == hs[i+1];
    }
  }

  /** Every run of the push search can be continued until the frontier is empty. */
  lemma {:induction false} CompletePush(g: Instance, plainTest: bool, hs: seq<Head>) returns (full: seq<Head>)
    requires InstanceOk(g) && PushRun(g, plainTest, hs)
    ensures PushRun(g, plainTest, full) && full[|full|-1].frontier == [] && hs <= full
    decreases g.n + 1 - |hs|
  {
    hide Ball, Level;
    PushRoundsBounded(g, plainTest, hs);
    var h := hs[|hs|-1];
    if h.frontier == [] {
      full := hs;
    } else {
      PushHeads(g, plainTest, hs, |hs| - 1);
      var h' := AnotherRound(g, plainTest, h, |hs| - 1);
      ExtendRun(g, plainTest, hs, h');
      PushRoundsBounded(g, plainTest, hs + [h']);
      full := CompletePush(g, plainTest, hs + [h']);
    }
  }

  // ---- pull ----

  datatype PullHead = PullHead(visited: seq<nat>, inFrontier: seq<bool>, iterations: nat, cont: bool)

  ghost function PassEnv(g: Instance, h: PullHead): PullEnv {
    PullEnv(g.n, g.threads, g.es, g.inn, h.inFrontier, h.visited)
  }

  /** One pass of the do-while loop; the two flag arrays are swapped afterwards. */
  ghost predicate PullPassBy(g: Instance, h: PullHead, h': PullHead, tr: seq<PullState>) {
    var c := PassEnv(g, h);
    && PullEnvOk(c) && PullTrace(c, tr) && PullDone(tr[|tr|-1])
    && h' == PullHead(tr[|tr|-1].visited, tr[|tr|-1].next, h.iterations + 1, tr[|tr|-1].cont)
  }

  ghost predicate PullPass(g: Instance, h: PullHead, h': PullHead) {
    exists tr :: PullPassBy(g, h, h', tr)
  }

  /** A run of the do-while loop from `first`; it goes on as long as `cont` is set. */
  ghost predicate PullRun(g: Instance, first: PullHead, ps: seq<PullHead>) {
    && |ps| > 1 && ps[0] == first
    && (forall i | 0 <= i < |ps| - 1 :: PullPass(g, ps[i], ps[i+1]))
    && (forall i | 0 < i < |ps| - 1 :: ps[i].cont)
  }

  ghost predicate PullAtLevel(g: Instance, h: PullHead, k: nat) {
    && Flags(h.visited, g.n) && |h.inFrontier| == g.n
    && VisitedSet(h.visited) == Ball(g.es, g.start, k)
    && FlagSet(h.inFrontier) == Level(g.es, g.start, k)
  }

  /** What a completed pass leaves behind marks the next level. */
  lemma FoundIsNextLevel(g: Instance, h: PullHead, h': PullHead, j: nat, k: nat)
    requires InstanceOk(g) && k == j + 1 && PullAtLevel(g, h, j)
    requires Flags(h'.visited, g.n) && |h'.inFrontier| == g.n
    requires VisitedSet(h'.visited) == VisitedSet(h.visited) + PullFringe(PassEnv(g, h))
    requires FlagSet(h'.inFrontier) == PullFringe(PassEnv(g, h)) - VisitedSet(h.visited)
    ensures PullAtLevel(g, h', k)
  {
    LevelStep(g.es, g.start, j, k);
  }

  lemma PassReachesNextLevel(g: Instance, h: PullHead, h': PullHead, j: nat, k: nat)
    requires InstanceOk(g) && k == j + 1 && PullAtLevel(g, h, j) && PullPass(g, h, h')
    ensures PullAtLevel(g, h', k) && h'.iterations == h.iterations + 1
    ensures h'.cont <==> Level(g.es, g.start, k) != {}
  {
    var tr :| PullPassBy(g, h, h', tr);
    PullResult(PassEnv(g, h), tr);
    FoundIsNextLevel(g, h, h', j, k);
  }

  /** After each pass the flags mark the next level: pull continues whatever invariant push had. */
  lemma {:induction false} PullHeads(g: Instance, first: PullHead, ps: seq<PullHead>, j: nat, k: nat, level: nat)
    requires InstanceOk(g) && PullAtLevel(g, first, j) && PullRun(g, first, ps) && k < |ps|
    requires level == j + k
    ensures PullAtLevel(g, ps[k], level) && ps[k].iterations == first.iterations + k
    ensures k > 0 ==> (ps[k].cont <==> Level(g.es, g.start, level) != {})
  {
    hide Ball, Level;
    if k > 0 {
      PullHeads(g, first, ps, j, k - 1, level - 1);
      PassReachesNextLevel(g, ps[k-1], ps[k], level - 1, level);
    }
  }

  /** The pull loop started at any level of the search visits exactly the reachable vertices. */
  lemma PullFromLevel(g: Instance, first: PullHead, ps: seq<PullHead>, j: nat)
    requires InstanceOk(g) && PullAtLevel(g, first, j) && PullRun(g, first, ps) && !ps[|ps|-1].cont
    ensures forall v :: v in VisitedSet(ps[|ps|-1].visited) <==> Reachable(g.es, g.start, v)
  {
    hide Ball, Level;
    var k := |ps| - 1;
    PullHeads(g, first, ps, j, k, j + k);
    forall v: nat ensures v in VisitedSet(ps[k].visited) <==> Reachable(g.es, g.start, v) {
      FinalBallIsReachable(g.es, g.start, j + k, v);
    }
  }

  ghost function PullStartHead(g: Instance): PullHead
    requires g.start < g.n
  {
    PullHead(StartVisited(g), seq(g.n, _ => false)[g.start := true], 0, true)
  }

  lemma PullStartIsLevelZero(g: Instance)
    requires InstanceOk(g)
    ensures PullAtLevel(g, PullStartHead(g), 0)
  {
    var s: set<nat> := {g.start};
    assert FlagSet(PullStartHead(g).inFrontier) == s;
  }

  lemma PullEnd(g: Instance, ps: seq<PullHead>)
    requires InstanceOk(g) && PullRun(g, PullStartHead(g), ps) && !ps[|ps|-1].cont
    ensures ps[|ps|-1].iterations == |ps| - 1 > 0
    ensures PullAtLevel(g, ps[|ps|-1], |ps| - 1)
    ensures Level(g.es, g.start, |ps| - 2) != {} && Level(g.es, g.start, |ps| - 1) == {}
  {
    hide Ball;
    PullStartIsLevelZero(g);
    PullHeads(g, PullStartHead(g), ps, 0, |ps| - 1, |ps| - 1);
    PullHeads(g, PullStartHead(g), ps, 0, |ps| - 2, |ps| - 2);
  }

  /** `bfs_pull` visits the reachable vertices and needs exactly as many iterations as `bfs_push`. */
  lemma PullSearch(g: Instance, ps: seq<PullHead>)
    requires InstanceOk(g) && InRowsLoaded(g) && PullRun(g, PullStartHead(g), ps) && !ps[|ps|-1].cont
    ensures forall v :: v in VisitedSet(ps[|ps|-1].visited) <==> Reachable(g.es, g.start, v)
    ensures ps[|ps|-1].iterations > 0 && Eccentricity(g.es, g.start, ps[|ps|-1].iterations - 1)
  {
    PullStartIsLevelZero(g);
    PullFromLevel(g, PullStartHead(g), ps, 0);
    PullEnd(g, ps);
    LastLevelIsEccentricity(g.es, g.start, |ps| - 1);
  }

  /** Push and pull agree on the visited array and on the iteration count, under all schedules. */
  lemma PushAndPullAgree(g: Instance, hs: seq<Head>, ps: seq<PullHead>)
    requires InstanceOk(g) && InRowsLoaded(g)
    requires PushRun(g, true, hs) && hs[|hs|-1].frontier == []
    requires PullRun(g, PullStartHead(g), ps) && !ps[|ps|-1].cont
    ensures hs[|hs|-1].visited == ps[|ps|-1].visited
    ensures hs[|hs|-1].iterations == ps[|ps|-1].iterations
  {
    hide Ball, Level;
    PushSearch(g, true, hs);
    PushHeads(g, true, hs, |hs| - 1);
    PullSearch(g, ps);
    PullEnd(g, ps);
    var a, b := hs[|hs|-1].visited, ps[|ps|-1].visited;
    forall v | 0 <= v < g.n ensures a[v] == b[v] {
      assert v in VisitedSet(a) <==> Reachable(g.es, g.start, v);
      assert v in VisitedSet(b) <==> Reachable(g.es, g.start, v);
    }
    EccentricityUnique(g.es, g.start, hs[|hs|-1].iterations - 1, ps[|ps|-1].iterations - 1);
  }

  /** The pull loop stops: a further pass is started at most once per vertex. */
  lemma PullPassesBounded(g: Instance, first: PullHead, ps: seq<PullHead>, j: nat)
    requires InstanceOk(g) && PullAtLevel(g, first, j) && PullRun(g, first, ps)
    ensures |ps| <= g.n + 2
  {
    hide Ball, Level;
    var k := |ps| - 2;
    if k > 0 {
      PullHeads(g, first, ps, j, k, j + k);
      LevelIndexBound(g.es, g.start, j + k, g.n);
    }
  }

  /** Started at an empty level, the pull loop makes one pass and changes nothing. */
  lemma PullFindsNothing(g: Instance, first: PullHead, ps: seq<PullHead>, j: nat)
    requires InstanceOk(g) && PullAtLevel(g, first, j) && Level(g.es, g.start, j) == {} && PullRun(g, first, ps)
    ensures |ps| == 2 && !ps[1].cont && ps[1].visited == first.visited
  {
    hide Ball, Level, InstanceOk;
    PullHeads(g, first, ps, j, 1, j + 1);
    EmptyLevelIsFinal(g.es, g.start, j, j + 1);
    var a, b := first.visited, ps[1].visited;
    forall v | 0 <= v < g.n ensures a[v] == b[v] {
      assert v in VisitedSet(a) <==> v in VisitedSet(b);
    }
  }

  /** From every reachable state of a pass, some continuation completes it. */
  lemma {:induction false} CompletePass(c: PullEnv, tr: seq<PullState>) returns (full: seq<PullState>)
    requires PullEnvOk(c) && PullTrace(c, tr)
    ensures PullTrace(c, full) && PullDone(full[|full|-1])
    decreases PullBudget(c.n, |c.inn.edges|) + 1 - |tr|
  {
    hide PullInv, PullNext, PullBudget, PullRemaining;
    var s := tr[|tr|-1];
    PullTraceInv(c, tr, |tr| - 1);
    PullRunsAreBounded(c, tr, |tr| - 1);
    if PullDone(s) {
      full := tr;
    } else {
      PullNeverStuck(c, s);
      var s' :| PullNext(c, s, s');
      var longer := tr + [s'];
      forall i | 0 <= i < |longer| - 1 ensures PullNext(c, longer[i], longer[i+1]) {
        assert i < |tr| - 1 ==> PullNext(c, tr[i], tr[i+1]);
      }
      full := CompletePass(c, longer);
    }
  }

  lemma AnotherPass(g: Instance, h: PullHead, k: nat) returns (h': PullHead)
    requires InstanceOk(g) && InRowsLoaded(g) && PullAtLevel(g, h, k)
    ensures PullPass(g, h, h')
  {
    var c := PassEnv(g, h);
    var tr := CompletePass(c, [PullStart(c)]);
    var last := tr[|tr|-1];
    h' := PullHead(last.visited, last.next, h.iterations + 1, last.cont);
    assert PullPassBy(g, h, h', tr);
  }

  lemma ExtendPull(g: Instance, first: PullHead, ps: seq<PullHead>, h': PullHead)
    requires ps == [first] || (PullRun(g, first, ps) && ps[|ps|-1].cont)
    requires PullPass(g, ps[|ps|-1], h')
    ensures PullRun(g, first, ps + [h'])
  {
    var ps' := ps + [h'];
    forall i | 0 <= i < |ps'| - 1 ensures PullPass(g, ps'[i], ps'[i+1]) {
      assert i < |ps| - 1 ==> ps'[i] == ps[i] && ps'[i+1] == ps[i+1];
    }
  }

  /** Every run of the pull loop can be continued until a pass finds nothing. */
  lemma {:induction false} CompletePull(g: Instance, first: PullHead, ps: seq<PullHead>, j: nat)
    returns (full: seq<PullHead>)
    requires InstanceOk(g) && InRowsLoaded(g) && PullAtLevel(g, first, j)
    requires ps == [first] || PullRun(g, first, ps)
    ensures PullRun(g, first, full) && !full[|full|-1].cont && ps <= full
    decreases g.n + 2 - |ps|
  {
    hide Ball, Level, InstanceOk, InRowsLoaded, PullAtLevel, PullPass;
    var k := |ps| - 1;
    if k > 0 {
      PullHeads(g, first, ps, j, k, j + k);
    }
    if k > 0 && !ps[k].cont {
      full := ps;
    } else {
      var h' := AnotherPass(g, ps[k], j + k);
      ExtendPull(g, first, ps, h');
      PullPassesBounded(g, first, ps + [h'], j);
      full := CompletePull(g, first, ps + [h'], j);
    }
  }

  // ---- push, then pull ----

  /** The flags after the seeding loop of the pull phase. */
  ghost function Seed(n: nat, frontier: seq<nat>): (r: seq<bool>)
    ensures |r| == n
  {
    seq(n, v requires 0 <= v => v in frontier)
  }

  lemma SeedIsLevel(g: Instance, h: Head, j: nat)
    requires InstanceOk(g) && AtLevel(g, h, j)
    ensures PullAtLevel(g, PullHead(h.visited, Seed(g.n, h.frontier), 0, true), j)
  {
    LevelEnvOk(g, h, j, false);
    BallInRange(g.es, g.start, j, g.n);
    forall v: nat ensures v in FlagSet(Seed(g.n, h.frontier)) <==> v in Level(g.es, g.start, j) {
      assert v in Elements(h.frontier) <==> v in h.frontier;
    }
  }

  /**
   * `bfs_pushpull` with the switch test replaced by an arbitrary choice: the push loop is left at
   * any head whatever, or runs until the frontier is empty; then the pull loop runs to its end.
   */
  lemma PushPullSearch(g: Instance, hs: seq<Head>, ps: seq<PullHead>)
    requires InstanceOk(g) && InRowsLoaded(g) && PushRun(g, false, hs)
    requires PullRun(g, PullHead(hs[|hs|-1].visited, Seed(g.n, hs[|hs|-1].frontier), 0, true), ps)
    requires !ps[|ps|-1].cont
    ensures forall v :: v in VisitedSet(ps[|ps|-1].visited) <==> Reachable(g.es, g.start, v)
  {
    hide Ball, Level;
    var j := |hs| - 1;
    PushHeads(g, false, hs, j);
    SeedIsLevel(g, hs[j], j);
    PullFromLevel(g, PullHead(hs[j].visited, Seed(g.n, hs[j].frontier), 0, true), ps, j);
  }
}
