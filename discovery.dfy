/**
 * The path-discovery loop of the main program: starting from the paths of
 * the first analysis, repeatedly build URLs from the current paths, download
 * what they lead to and analyse the directory again, until the set of paths
 * stops changing, no path is left, or five rounds have run.
 *
 * One round (`construct_and_request_urls` followed by
 * `analyze_js_files_for_paths` on the grown directory) is the parameter
 * `crawl`: given the round number and the current sorted path list it
 * returns the files that round saved and the new sorted path list.
 */
module Discovery {
  import opened Order

  /** The cap on the number of rounds. */
  const MaxIterations: nat := 5

  /** What one round hands back: the names of the files it saved, and the new path list. */
  datatype Round = Round(files: seq<string>, paths: seq<string>)

  /**
   * The loop's variables: the round counter, the path sets before and after
   * the last round, the current path list and every file saved so far.
   */
  datatype LoopState = LoopState(iteration: nat, previous: set<string>, current: set<string>,
                                 paths: seq<string>, newFiles: seq<string>)

  /** The state before the loop: round 1, no previous paths, the first analysis as current. */
  function Start(paths: seq<string>): (s: LoopState)
    ensures s.iteration == 1 && s.previous == {} && s.newFiles == []
    ensures s.paths == paths && s.current == Elems(paths)
  {
    LoopState(1, {}, Elems(paths), paths, [])
  }

  /** The loop's guard: rounds are left and the last round changed the path set. */
  predicate Continues(s: LoopState) {
    s.iteration <= MaxIterations && s.previous != s.current
  }

  /** The loop as a function of its state: one round per step, or the exit. */
  function Run(crawl: (nat, seq<string>) -> Round, s: LoopState): (r: LoopState)
    ensures !Continues(r)
    ensures s.iteration <= r.iteration
    decreases MaxIterations + 1 - s.iteration
  {
    if !Continues(s) then s
    else if s.paths == [] then s.(previous := s.current)
    else
      var r := crawl(s.iteration, s.paths);
      Run(crawl, LoopState(s.iteration + 1, s.current, Elems(r.paths), r.paths, s.newFiles + r.files))
  }

  /** The invariant the loop keeps: the counter is in range and the current set is the current list's. */
  predicate Good(s: LoopState) {
    1 <= s.iteration <= MaxIterations + 1 && s.current == Elems(s.paths)
  }

  /**
   * What the loop leaves behind: the counter stays between 1 and 6, the
   * current set is the set of the current list, and the loop stops only at
   * the cap or with the path set unchanged (a `break` on an empty list
   * also leaves the two sets equal).
   */
  lemma {:induction false} RunEnds(crawl: (nat, seq<string>) -> Round, s: LoopState)
    requires Good(s)
    ensures Good(Run(crawl, s))
    ensures Run(crawl, s).iteration >= s.iteration
    ensures !Continues(Run(crawl, s))
    ensures Run(crawl, s).iteration <= MaxIterations ==> Run(crawl, s).previous == Run(crawl, s).current
    decreases MaxIterations + 1 - s.iteration
  {
    if Continues(s) && s.paths != [] {
      var r := crawl(s.iteration, s.paths);
      RunEnds(crawl, LoopState(s.iteration + 1, s.current, Elems(r.paths), r.paths, s.newFiles + r.files));
    }
  }

  /** With no path from the first analysis the loop body never runs. */
  lemma NoInitialPaths(crawl: (nat, seq<string>) -> Round)
    ensures Run(crawl, Start([])) == Start([])
  {
    ElemsEmpty<string>([]);
  }

  /**
   * With paths from the first analysis at least one round runs: the loop
   * can end with an empty list only when a round produced it.
   */
  lemma NonEmptyStartRunsARound(crawl: (nat, seq<string>) -> Round, initial: seq<string>)
    requires initial != []
    ensures Run(crawl, Start(initial)).iteration >= 2
    ensures |crawl(1, initial).files| <= |Run(crawl, Start(initial)).newFiles|
    ensures Run(crawl, Start(initial)).newFiles[..|crawl(1, initial).files|] == crawl(1, initial).files
  {
    ElemsEmpty(initial);
    var r := crawl(1, initial);
    var s1 := LoopState(2, Elems(initial), Elems(r.paths), r.paths, [] + r.files);
    ElemsEmpty(r.paths);
    RunEnds(crawl, s1);
    RunKeepsFiles(crawl, s1);
  }

  /** Later rounds only add files after those already saved. */
  lemma {:induction false} RunKeepsFiles(crawl: (nat, seq<string>) -> Round, s: LoopState)
    ensures |s.newFiles| <= |Run(crawl, s).newFiles|
    ensures Run(crawl, s).newFiles[..|s.newFiles|] == s.newFiles
    decreases MaxIterations + 1 - s.iteration
  {
    if Continues(s) && s.paths != [] {
      var r := crawl(s.iteration, s.paths);
      var s' := LoopState(s.iteration + 1, s.current, Elems(r.paths), r.paths, s.newFiles + r.files);
      RunKeepsFiles(crawl, s');
      assert (s.newFiles + r.files)[..|s.newFiles|] == s.newFiles;
    }
  }

  /**
   * When every round comes back with a non-empty list whose set differs from
   * the list it was given, the loop runs all five rounds.
   */
  lemma {:induction false} AlwaysNewRunsToCap(crawl: (nat, seq<string>) -> Round, s: LoopState)
    requires forall i, ps :: crawl(i, ps).paths != [] && Elems(crawl(i, ps).paths) != Elems(ps)
    requires Good(s) && s.paths != [] && s.previous != s.current
    ensures Run(crawl, s).iteration == MaxIterations + 1
    decreases MaxIterations + 1 - s.iteration
  {
    if s.iteration <= MaxIterations {
      var r := crawl(s.iteration, s.paths);
      AlwaysNewRunsToCap(crawl, LoopState(s.iteration + 1, s.current, Elems(r.paths), r.paths, s.newFiles + r.files));
    }
  }

  /** The same from the start: a non-empty first analysis and ever-changing rounds give five rounds. */
  lemma AlwaysNewFromStart(crawl: (nat, seq<string>) -> Round, initial: seq<string>)
    requires forall i, ps :: crawl(i, ps).paths != [] && Elems(crawl(i, ps).paths) != Elems(ps)
    requires initial != []
    ensures Run(crawl, Start(initial)).iteration == MaxIterations + 1
  {
    ElemsEmpty(initial);
    AlwaysNewRunsToCap(crawl, Start(initial));
  }

  /**
   * When the first round finds no new path (the same set as the first
   * analysis), the loop stops after that round, with the counter at 2 and
   * the files of that one round.
   */
  lemma FixedPointAfterOneRound(crawl: (nat, seq<string>) -> Round, initial: seq<string>)
    requires initial != []
    requires Elems(crawl(1, initial).paths) == Elems(initial)
    ensures Run(crawl, Start(initial)).iteration == 2
    ensures Run(crawl, Start(initial)).paths == crawl(1, initial).paths
    ensures Run(crawl, Start(initial)).newFiles == crawl(1, initial).files
  {
    ElemsEmpty(initial);
    var r := crawl(1, initial);
    assert [] + r.files == r.files;
  }

  /**
   * The loop itself: run rounds while rounds are left and the path set
   * changed; stop early when the path list is empty. Returns the final
   * counter, the final path set and list, and every file saved in the rounds.
   */
  method Discover(initial: seq<string>, crawl: (nat, seq<string>) -> Round)
    returns (iteration: nat, currentPaths: set<string>, paths: seq<string>, allNewFiles: seq<string>)
    ensures Run(crawl, Start(initial)) == LoopState(iteration, Run(crawl, Start(initial)).previous, currentPaths, paths, allNewFiles)
    ensures 1 <= iteration <= MaxIterations + 1
    ensures currentPaths == Elems(paths)
    ensures initial == [] ==> iteration == 1 && allNewFiles == []
  {
    iteration := 1;
    var previousPaths: set<string> := {};
    currentPaths := Elems(initial);
    paths := initial;
    allNewFiles := [];
    if initial == [] {
      NoInitialPaths(crawl);
    }
    while iteration <= MaxIterations && previousPaths != currentPaths
      invariant Good(LoopState(iteration, previousPaths, currentPaths, paths, allNewFiles))
      invariant Run(crawl, LoopState(iteration, previousPaths, currentPaths, paths, allNewFiles)) == Run(crawl, Start(initial))
      decreases MaxIterations + 1 - iteration
    {
      previousPaths := currentPaths;
      if paths != [] {
        var round := crawl(iteration, paths);
        allNewFiles := allNewFiles + round.files;
        currentPaths := Elems(round.paths);
        paths := round.paths;
        iteration := iteration + 1;
      } else {
        break;
      }
    }
    RunEnds(crawl, Start(initial));
  }
}
