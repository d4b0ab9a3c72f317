/** The concurrent module loader (src/main.c, worker_loop and compile_project) as a
    transition system: any number of workers share a LIFO worklist of paths, the claim
    table mod_cache and the atomic counter modules_in_flight.  A step is one critical
    section or one atomic operation of one thread, so every interleaving of the threads
    is a sequence of steps. */
module Loader {

  datatype Path = Path(text: string)
  datatype Mod = Mod(absPath: string)

  /** What the file system answers.  `resolve[p]` is the absolute path of `p` (absent: it
      does not resolve); `uses[m]` are the resolvable `use` paths of module `m` in statement
      order (absent: the file does not load or does not parse). */
  datatype World = World(resolve: map<Path, Mod>, uses: map<Mod, seq<Path>>)
  {
    function UsesOf(m: Mod): seq<Path> {
      if m in uses then uses[m] else []
    }
  }

  /** A value of mod_cache: the in-progress placeholder, or the finished module. */
  datatype Slot = InProgress | Loaded

  /** Where a worker is in its loop, with the locals it holds there. */
  datatype Worker =
    | AtPop
    | Popped(path: Path)
    | Claimed(mod: Mod)
    | Parsed(mod: Mod)
    | Scanning(mod: Mod, at: nat)   // published; `at` use paths already handed on
    | Counted(mod: Mod, at: nat)    // counter raised for use path `at`, push still to come
    | Retiring                      // about to lower the counter and start over
    | Exited

  datatype MainPhase = Polling | SawZero | Signalled

  /** The shared state, the threads, and three logs that no step reads: paths popped, the
      modules parsed in order, and the use sites (module, index) pushed in order. */
  datatype State = State(
    worklist: seq<Path>, done: bool,
    cache: map<Mod, Slot>, inFlight: int, error: bool,
    workers: seq<Worker>, main: MainPhase,
    pops: nat, parses: seq<Mod>, pushes: seq<(Mod, nat)>)

  datatype Actor = Main | Thread(id: nat)

  function Init(input: Path, threads: nat): State {
    State([input], false, map[], 1, false, seq(threads, _ => AtPop), Polling, 0, [], [])
  }

  predicate Enabled(s: State, a: Actor) {
    match a
    case Main => (s.main.Polling? && s.inFlight <= 0) || s.main.SawZero?
    case Thread(w) =>
      w < |s.workers| &&
      match s.workers[w]
      case AtPop => |s.worklist| > 0 || s.done
      case Exited => false
      case _ => true
  }

  function StepThread(W: World, s: State, w: nat): State
    requires Enabled(s, Thread(w))
  {
    match s.workers[w]
    case AtPop =>
      if |s.worklist| > 0 then
        var last := |s.worklist| - 1;
        s.(workers := s.workers[w := Popped(s.worklist[last])], worklist := s.worklist[..last], pops := s.pops + 1)
      else
        s.(workers := s.workers[w := Exited])
    case Popped(p) =>
      if p !in W.resolve then
        s.(workers := s.workers[w := Retiring], error := true)
      else if W.resolve[p] in s.cache then
        s.(workers := s.workers[w := Retiring])
      else
        s.(workers := s.workers[w := Claimed(W.resolve[p])], cache := s.cache[W.resolve[p] := InProgress])
    case Claimed(m) =>
      if m !in W.uses then
        s.(workers := s.workers[w := Retiring], error := true)
      else
        s.(workers := s.workers[w := Parsed(m)], parses := s.parses + [m])
    case Parsed(m) =>
      s.(workers := s.workers[w := Scanning(m, 0)], cache := s.cache[m := Loaded])
    case Scanning(m, i) =>
      if i < |W.UsesOf(m)| then
        s.(workers := s.workers[w := Counted(m, i)], inFlight := s.inFlight + 1)
      else
        s.(workers := s.workers[w := AtPop], inFlight := s.inFlight - 1)
    case Counted(m, i) =>
      var u := W.UsesOf(m);
      s.(workers := s.workers[w := Scanning(m, i + 1)],
         worklist := s.worklist + if i < |u| then [u[i]] else [], pushes := s.pushes + [(m, i)])
    case Retiring =>
      s.(workers := s.workers[w := AtPop], inFlight := s.inFlight - 1)
  }

  function StepMain(s: State): State
    requires Enabled(s, Main)
  {
    if s.main.Polling? then s.(main := SawZero) else s.(main := Signalled, done := true)
  }

  function Step(W: World, s: State, a: Actor): State
    requires Enabled(s, a)
  {
    match a
    case Main => StepMain(s)
    case Thread(w) => StepThread(W, s, w)
  }

  /** `Run(W, s, sched, t)`: letting the actors of `sched` step in that order, each enabled
      when its turn comes, leads from `s` to `t`. */
  ghost predicate Run(W: World, s: State, sched: seq<Actor>, t: State)
    decreases |sched|
  {
    if sched == [] then s == t
    else Enabled(s, sched[0]) && Run(W, Step(W, s, sched[0]), sched[1..], t)
  }

  // ---------------------------------------------------------------- import closure

  /** A chain of imports: each path is a use path of the module its predecessor loads. */
  ghost predicate Imports(W: World, p: Path, q: Path) {
    p in W.resolve && W.resolve[p] in W.uses && q in W.uses[W.resolve[p]]
  }

  ghost predicate Chain(W: World, input: Path, c: seq<Path>) {
    |c| > 0 && c[0] == input && forall i :: 0 < i < |c| ==> Imports(W, c[i - 1], c[i])
  }

  ghost predicate ReachedPath(W: World, input: Path, p: Path) {
    exists c :: Chain(W, input, c) && c[|c| - 1] == p
  }

  ghost predicate ReachedMod(W: World, input: Path, m: Mod) {
    exists p :: ReachedPath(W, input, p) && p in W.resolve && W.resolve[p] == m
  }

  lemma {:induction false} ReachedInput(W: World, input: Path)
    ensures ReachedPath(W, input, input)
  {
    assert Chain(W, input, [input]);
  }

  lemma {:induction false} ReachedUse(W: World, input: Path, m: Mod, i: nat)
    requires ReachedMod(W, input, m) && i < |W.UsesOf(m)|
    ensures ReachedPath(W, input, W.UsesOf(m)[i])
  {
    var p :| ReachedPath(W, input, p) && p in W.resolve && W.resolve[p] == m;
    var c :| Chain(W, input, c) && c[|c| - 1] == p;
    var d := c + [W.UsesOf(m)[i]];
    assert Imports(W, p, W.UsesOf(m)[i]);
    assert Chain(W, input, d) && d[|d| - 1] == W.UsesOf(m)[i];
  }

  // ---------------------------------------------------------------- the counter

  /** How much of modules_in_flight a worker accounts for: the path it popped, plus an
      import it has counted but not pushed. */
  function Holds(k: Worker): nat {
    match k
    case AtPop => 0
    case Exited => 0
    case Counted(_, _) => 2
    case _ => 1
  }

  function Held(ws: seq<Worker>): nat {
    if ws == [] then 0 else Holds(ws[0]) + Held(ws[1..])
  }

  lemma {:induction false} HeldUpdate(ws: seq<Worker>, w: nat, k: Worker)
    requires w < |ws|
    ensures Held(ws[w := k]) + Holds(ws[w]) == Held(ws) + Holds(k)
  {
    if w == 0 {
      assert ws[w := k][1..] == ws[1..];
    } else {
      HeldUpdate(ws[1..], w - 1, k);
      assert ws[w := k][1..] == ws[1..][w - 1 := k];
    }
  }

  lemma {:induction false} HeldZero(ws: seq<Worker>)
    ensures Held(ws) == 0 <==> forall w :: 0 <= w < |ws| ==> ws[w].AtPop? || ws[w].Exited?
  {
    if ws != [] {
      HeldZero(ws[1..]);
      if Held(ws) == 0 {
        forall w | 0 <= w < |ws| ensures ws[w].AtPop? || ws[w].Exited? {
          if w > 0 { assert ws[w] == ws[1..][w - 1]; }
        }
      } else if Holds(ws[0]) == 0 {
        var w :| 0 <= w < |ws[1..]| && !(ws[1..][w].AtPop? || ws[1..][w].Exited?);
        assert ws[w + 1] == ws[1..][w];
      }
    }
  }

  lemma {:induction false} HeldIdle(n: nat)
    ensures Held(seq(n, _ => AtPop)) == 0
  {
    HeldZero(seq(n, _ => AtPop));
  }

  ghost predicate CounterExact(s: State) {
    s.inFlight == |s.worklist| + Held(s.workers)
  }

  ghost predicate ShutdownSafe(s: State) {
    && (s.done <==> s.main.Signalled?)
    && (!s.main.Polling? ==> s.inFlight == 0)
    && (forall w :: 0 <= w < |s.workers| && s.workers[w].Exited? ==> s.done)
  }

  // ---------------------------------------------------------------- claims and closure

  predicate InHand(k: Worker) {
    k.Claimed? || k.Parsed? || k.Scanning? || k.Counted?
  }

  predicate Owns(k: Worker, m: Mod) {
    InHand(k) && k.mod == m
  }

  /** No module is in two hands. */
  ghost predicate Exclusive(s: State) {
    forall v, w :: 0 <= v < w < |s.workers| && InHand(s.workers[v]) && InHand(s.workers[w]) ==>
      s.workers[v].mod != s.workers[w].mod
  }

  /** The table says how far the module in a worker's hand has got. */
  ghost predicate HandsMatch(W: World, s: State) {
    forall w :: 0 <= w < |s.workers| ==> OwnerOk(W, s, s.workers[w])
  }

  /** A placeholder of a loadable module is in someone's hand. */
  ghost predicate TableOk(W: World, s: State) {
    && (forall m :: m in s.cache && s.cache[m].Loaded? ==> m in W.uses)
    && (forall m :: m in s.cache && s.cache[m].InProgress? && m in W.uses ==>
          exists w :: 0 <= w < |s.workers| && Owns(s.workers[w], m))
  }

  ghost predicate Ownership(W: World, s: State) {
    Exclusive(s) && HandsMatch(W, s) && TableOk(W, s)
  }

  ghost predicate OwnerOk(W: World, s: State, k: Worker) {
    match k
    case Claimed(m) => m in s.cache && s.cache[m].InProgress?
    case Parsed(m) => m in s.cache && s.cache[m].InProgress? && m in W.uses
    case Scanning(m, i) => m in s.cache && s.cache[m].Loaded? && i <= |W.UsesOf(m)|
    case Counted(m, i) => m in s.cache && s.cache[m].Loaded? && i < |W.UsesOf(m)|
    case _ => true
  }

  /** No path or module outside the closure is ever touched. */
  ghost predicate SoundPaths(W: World, input: Path, s: State) {
    && (forall j :: 0 <= j < |s.worklist| ==> ReachedPath(W, input, s.worklist[j]))
    && (forall w :: 0 <= w < |s.workers| && s.workers[w].Popped? ==> ReachedPath(W, input, s.workers[w].path))
  }

  /** An error means a path or module of the closure fails. */
  ghost predicate SoundTable(W: World, input: Path, s: State) {
    && (forall m :: m in s.cache ==> ReachedMod(W, input, m))
    && (s.error ==> ClosureFails(W, input))
  }

  ghost predicate FailsAt(W: World, p: Path) {
    p !in W.resolve || W.resolve[p] !in W.uses
  }

  /** Some path of the closure does not resolve, load or parse. */
  ghost predicate ClosureFails(W: World, input: Path) {
    exists p :: ReachedPath(W, input, p) && FailsAt(W, p)
  }

  /** A discovered path is never lost: it is waiting, in a worker's hand, or dealt with. */
  ghost predicate Pending(s: State, p: Path) {
    || p in s.worklist
    || exists w :: 0 <= w < |s.workers| && s.workers[w] == Popped(p)
  }

  ghost predicate Settled(W: World, s: State, p: Path) {
    || Pending(s, p)
    || (if p in W.resolve then W.resolve[p] in s.cache else s.error)
  }

  ghost predicate Scanned(s: State, m: Mod, i: nat) {
    forall w :: 0 <= w < |s.workers| && Owns(s.workers[w], m) ==>
      !s.workers[w].Claimed? && !s.workers[w].Parsed? && i < s.workers[w].at
  }

  ghost predicate Complete(W: World, input: Path, s: State) {
    && Settled(W, s, input)
    && (forall m, i :: m in s.cache && s.cache[m].Loaded? && 0 <= i < |W.UsesOf(m)| && Scanned(s, m, i) ==>
          Settled(W, s, W.UsesOf(m)[i]))
    && (forall m :: m in s.cache && m !in W.uses ==>
          s.error || exists w :: 0 <= w < |s.workers| && s.workers[w] == Claimed(m))
  }

  /** The logs: each module is parsed once, each use site is pushed once, in order. */
  ghost predicate Logs(W: World, s: State) {
    && (forall i, j :: 0 <= i < j < |s.parses| ==> s.parses[i] != s.parses[j])
    && (forall m :: m in s.parses <==> m in s.cache && m in W.uses && !HasClaimed(s, m))
    && (forall i, j :: 0 <= i < j < |s.pushes| ==> s.pushes[i] != s.pushes[j])
    && (forall m, i :: (m, i) in s.pushes <==>
          m in s.cache && s.cache[m].Loaded? && 0 <= i < |W.UsesOf(m)| && Scanned(s, m, i))
    && s.pops + |s.worklist| == 1 + |s.pushes|
  }

  ghost predicate HasClaimed(s: State, m: Mod) {
    exists w :: 0 <= w < |s.workers| && s.workers[w] == Claimed(m)
  }

  ghost predicate Inv(W: World, input: Path, s: State) {
    && CounterExact(s) && ShutdownSafe(s) && Ownership(W, s)
    && SoundPaths(W, input, s) && SoundTable(W, input, s) && Complete(W, input, s) && Logs(W, s)
  }

  // ---------------------------------------------------------------- preservation

  lemma {:induction false} InitInv(W: World, input: Path, threads: nat)
    ensures Inv(W, input, Init(input, threads))
  {
    HeldIdle(threads);
    ReachedInput(W, input);
  }

  lemma {:induction false} StepCounter(W: World, s: State, a: Actor)
    requires Enabled(s, a) && CounterExact(s) && ShutdownSafe(s) && Ownership(W, s)
    ensures CounterExact(Step(W, s, a))
  {
    HeldZero(s.workers);
    if a.Thread? {
      HeldUpdate(s.workers, a.id, Step(W, s, a).workers[a.id]);
    }
  }

  lemma {:induction false} StepShutdown(W: World, s: State, a: Actor)
    requires Enabled(s, a) && CounterExact(s) && ShutdownSafe(s) && Ownership(W, s)
    ensures ShutdownSafe(Step(W, s, a))
  {
    HeldZero(s.workers);
  }

  lemma {:induction false} StepExclusive(W: World, s: State, a: Actor)
    requires Enabled(s, a) && Exclusive(s) && HandsMatch(W, s)
    ensures Exclusive(Step(W, s, a))
  {
    if a.Thread? {
      var t, w := Step(W, s, a), a.id;
      assert forall v :: 0 <= v < |s.workers| && v != w ==> t.workers[v] == s.workers[v];
      if InHand(t.workers[w]) {
        forall v | 0 <= v < |s.workers| && v != w && InHand(s.workers[v])
          ensures s.workers[v].mod != t.workers[w].mod
        {
          assert OwnerOk(W, s, s.workers[v]);
        }
      }
    }
  }

  /** The mover's own entry stays right, and nobody else's entry is touched. */
  lemma {:induction false} StepHand(W: World, s: State, w: nat)
    requires Enabled(s, Thread(w)) && HandsMatch(W, s)
    ensures var t := StepThread(W, s, w);
            && OwnerOk(W, t, t.workers[w]) && t.workers == s.workers[w := t.workers[w]]
            && (forall m :: m in s.cache && s.workers[w] != Parsed(m) ==> m in t.cache && t.cache[m] == s.cache[m])
  {
    assert OwnerOk(W, s, s.workers[w]);
  }

  lemma {:induction false} StepHandsMatch(W: World, s: State, a: Actor)
    requires Enabled(s, a) && Exclusive(s) && HandsMatch(W, s)
    ensures HandsMatch(W, Step(W, s, a))
  {
    if a.Thread? {
      StepHand(W, s, a.id);
      var t, w := StepThread(W, s, a.id), a.id;
      forall v | 0 <= v < |s.workers| && v != w ensures OwnerOk(W, t, s.workers[v]) {
        assert OwnerOk(W, s, s.workers[v]);
      }
    }
  }

  lemma {:induction false} StepTableOk(W: World, s: State, a: Actor)
    requires Enabled(s, a) && HandsMatch(W, s) && TableOk(W, s)
    ensures TableOk(W, Step(W, s, a))
  {
    if a.Thread? {
      var t, w := Step(W, s, a), a.id;
      assert OwnerOk(W, s, s.workers[w]);
      forall m | m in t.cache && t.cache[m].InProgress? && m in W.uses
        ensures exists v :: 0 <= v < |t.workers| && Owns(t.workers[v], m)
      {
        if m in s.cache {
          var v :| 0 <= v < |s.workers| && Owns(s.workers[v], m);
          assert Owns(t.workers[v], m);
        } else {
          assert Owns(t.workers[w], m);
        }
      }
    }
  }

  lemma {:induction false} StepOwnership(W: World, s: State, a: Actor)
    requires Enabled(s, a) && Ownership(W, s)
    ensures Ownership(W, Step(W, s, a))
  {
    StepExclusive(W, s, a);
    StepHandsMatch(W, s, a);
    StepTableOk(W, s, a);
  }

  lemma {:induction false} StepWaiting(W: World, input: Path, s: State, a: Actor, j: nat)
    requires Enabled(s, a) && HandsMatch(W, s)
    requires SoundPaths(W, input, s) && SoundTable(W, input, s) && j < |Step(W, s, a).worklist|
    ensures ReachedPath(W, input, Step(W, s, a).worklist[j])
  {
    WaitingIsOld(W, s, a, j);
    if a.Thread? && s.workers[a.id].Counted? {
      assert OwnerOk(W, s, s.workers[a.id]);
      ReachedUse(W, input, s.workers[a.id].mod, s.workers[a.id].at);
    }
  }

  /** What waits waited before, or has just been pushed. */
  lemma {:induction false} WaitingIsOld(W: World, s: State, a: Actor, j: nat)
    requires Enabled(s, a) && j < |Step(W, s, a).worklist|
    ensures var p := Step(W, s, a).worklist[j];
            || (j < |s.worklist| && p == s.worklist[j])
            || (a.Thread? && s.workers[a.id].Counted?
                && var u := W.UsesOf(s.workers[a.id].mod); s.workers[a.id].at < |u| && p == u[s.workers[a.id].at])
  {
  }

  lemma {:induction false} StepSoundPaths(W: World, input: Path, s: State, a: Actor)
    requires Enabled(s, a) && HandsMatch(W, s)
    requires SoundPaths(W, input, s) && SoundTable(W, input, s)
    ensures SoundPaths(W, input, Step(W, s, a))
  {
    var t := Step(W, s, a);
    forall j | 0 <= j < |t.worklist| ensures ReachedPath(W, input, t.worklist[j]) {
      StepWaiting(W, input, s, a, j);
    }
    forall w | 0 <= w < |t.workers| && t.workers[w].Popped? ensures ReachedPath(W, input, t.workers[w].path) {
      StepPopped(W, s, a, w);
    }
  }

  /** A path in hand was in hand before, or on the list. */
  lemma {:induction false} StepPopped(W: World, s: State, a: Actor, w: nat)
    requires Enabled(s, a) && w < |s.workers| && Step(W, s, a).workers[w].Popped?
    ensures s.workers[w] == Step(W, s, a).workers[w] || Step(W, s, a).workers[w].path in s.worklist
  {
    if a == Thread(w) {
      assert Step(W, s, a).workers[w].path == s.worklist[|s.worklist| - 1];
    }
  }

  lemma {:induction false} StepSoundTable(W: World, input: Path, s: State, a: Actor)
    requires Enabled(s, a) && HandsMatch(W, s)
    requires SoundPaths(W, input, s) && SoundTable(W, input, s)
    ensures SoundTable(W, input, Step(W, s, a))
  {
    if a.Thread? {
      assert OwnerOk(W, s, s.workers[a.id]);
      match s.workers[a.id]
      case Popped(p) =>
        if p !in W.resolve { assert FailsAt(W, p); }
      case Claimed(m) =>
        if m !in W.uses {
          var p :| ReachedPath(W, input, p) && p in W.resolve && W.resolve[p] == m;
          assert FailsAt(W, p);
        }
      case _ =>
    }
  }

  lemma {:induction false} StepPending(W: World, s: State, a: Actor, p: Path)
    requires Enabled(s, a) && Ownership(W, s) && Settled(W, s, p)
    ensures Settled(W, Step(W, s, a), p)
  {
    if a.Thread? {
      var t, w := Step(W, s, a), a.id;
      if p in s.worklist {
        var j :| 0 <= j < |s.worklist| && s.worklist[j] == p;
        if s.workers[w].AtPop? && j == |s.worklist| - 1 {
          assert t.workers[w] == Popped(p);
        } else {
          assert t.worklist[j] == p;
        }
      } else if Pending(s, p) {
        var v :| 0 <= v < |s.workers| && s.workers[v] == Popped(p);
        if v != w { assert t.workers[v] == Popped(p); }
      }
    }
  }

  /** A use site that a step newly scans is the one it has just pushed. */
  lemma {:induction false} StepScanned(W: World, s: State, a: Actor, m: Mod, i: nat)
    requires Enabled(s, a) && Ownership(W, s)
    requires m in Step(W, s, a).cache && Step(W, s, a).cache[m].Loaded? && i < |W.UsesOf(m)|
    ensures Scanned(Step(W, s, a), m, i) <==>
              || (m in s.cache && s.cache[m].Loaded? && Scanned(s, m, i))
              || (a.Thread? && s.workers[a.id] == Counted(m, i))
  {
    if a.Thread? {
      if Owns(s.workers[a.id], m) { OwnerScans(W, s, a.id, m, i); } else { OthersScan(W, s, a.id, m, i); }
    }
  }

  /** The module is in the hand of the worker that steps. */
  lemma {:induction false} OwnerScans(W: World, s: State, w: nat, m: Mod, i: nat)
    requires Enabled(s, Thread(w)) && Ownership(W, s) && Owns(s.workers[w], m)
    requires m in Step(W, s, Thread(w)).cache && Step(W, s, Thread(w)).cache[m].Loaded? && i < |W.UsesOf(m)|
    ensures Scanned(Step(W, s, Thread(w)), m, i) <==>
              || (m in s.cache && s.cache[m].Loaded? && Scanned(s, m, i))
              || s.workers[w] == Counted(m, i)
  {
    var t := Step(W, s, Thread(w));
    assert forall v :: 0 <= v < |s.workers| && v != w ==> t.workers[v] == s.workers[v] && !Owns(s.workers[v], m);
    match s.workers[w]
    case Counted(_, _) =>
      assert Owns(t.workers[w], m);
    case Scanning(_, k) =>
      if k < |W.UsesOf(m)| { assert Owns(t.workers[w], m); }
    case Parsed(_) =>
      assert Owns(t.workers[w], m);
    case Claimed(_) =>
  }

  lemma {:induction false} OthersScan(W: World, s: State, w: nat, m: Mod, i: nat)
    requires Enabled(s, Thread(w)) && Ownership(W, s) && !Owns(s.workers[w], m)
    requires m in Step(W, s, Thread(w)).cache && Step(W, s, Thread(w)).cache[m].Loaded?
    ensures Scanned(Step(W, s, Thread(w)), m, i) <==> m in s.cache && s.cache[m].Loaded? && Scanned(s, m, i)
  {
    var t := Step(W, s, Thread(w));
    StillNotOwner(W, s, w, m);
    SameScan(s, t, w, m, i);
  }

  lemma {:induction false} StillNotOwner(W: World, s: State, w: nat, m: Mod)
    requires Enabled(s, Thread(w)) && !Owns(s.workers[w], m)
    requires m in Step(W, s, Thread(w)).cache && Step(W, s, Thread(w)).cache[m].Loaded?
    ensures var t := Step(W, s, Thread(w));
            && m in s.cache && t.cache[m] == s.cache[m] && !Owns(t.workers[w], m)
            && |t.workers| == |s.workers| && forall v :: 0 <= v < |s.workers| && v != w ==> t.workers[v] == s.workers[v]
  {
  }

  lemma {:induction false} SameScan(s: State, t: State, w: nat, m: Mod, i: nat)
    requires w < |s.workers| == |t.workers| && !Owns(s.workers[w], m) && !Owns(t.workers[w], m)
    requires forall v :: 0 <= v < |s.workers| && v != w ==> t.workers[v] == s.workers[v]
    ensures Scanned(t, m, i) <==> Scanned(s, m, i)
  {
  }

  lemma {:induction false} StepComplete(W: World, input: Path, s: State, a: Actor)
    requires Enabled(s, a) && Ownership(W, s) && Complete(W, input, s)
    ensures Complete(W, input, Step(W, s, a))
  {
    var t := Step(W, s, a);
    StepPending(W, s, a, input);
    forall m, i | m in t.cache && t.cache[m].Loaded? && 0 <= i < |W.UsesOf(m)| && Scanned(t, m, i)
      ensures Settled(W, t, W.UsesOf(m)[i])
    {
      StepScanned(W, s, a, m, i);
      if a.Thread? && s.workers[a.id] == Counted(m, i) {
        assert t.worklist[|s.worklist|] == W.UsesOf(m)[i];
      } else {
        StepPending(W, s, a, W.UsesOf(m)[i]);
      }
    }
    forall m | m in t.cache && m !in W.uses && !t.error ensures HasClaimed(t, m) { StepUnloaded(W, s, a, m); }
  }

  /** A module that does not load stays claimed until the error is noted. */
  lemma {:induction false} StepUnloaded(W: World, s: State, a: Actor, m: Mod)
    requires Enabled(s, a) && Ownership(W, s) && m in Step(W, s, a).cache && m !in W.uses && !Step(W, s, a).error
    requires m in s.cache ==> s.error || HasClaimed(s, m)
    ensures HasClaimed(Step(W, s, a), m)
  {
    var t := Step(W, s, a);
    if m in s.cache {
      var w :| 0 <= w < |s.workers| && s.workers[w] == Claimed(m);
      assert t.workers[w] == Claimed(m);
    } else {
      assert t.workers[a.id] == Claimed(m);
    }
  }

  lemma {:induction false} StepLogs(W: World, s: State, a: Actor)
    requires Enabled(s, a) && Ownership(W, s) && Logs(W, s)
    ensures Logs(W, Step(W, s, a))
  {
    var t := Step(W, s, a);
    forall m
      ensures m in t.parses <==> m in t.cache && m in W.uses && !HasClaimed(t, m)
    {
      StepParses(W, s, a, m);
    }
    forall m, i
      ensures (m, i) in t.pushes <==>
                m in t.cache && t.cache[m].Loaded? && 0 <= i < |W.UsesOf(m)| && Scanned(t, m, i)
    {
      if m in t.cache && t.cache[m].Loaded? && 0 <= i < |W.UsesOf(m)| {
        StepScanned(W, s, a, m, i);
      }
      if i >= 0 { StepPushes(W, s, a, m, i); }
    }
    StepDistinct(W, s, a);
  }

  lemma {:induction false} StepClaimed(W: World, s: State, w: nat, m: Mod)
    requires Enabled(s, Thread(w)) && Exclusive(s)
    ensures HasClaimed(StepThread(W, s, w), m) <==>
              || StepThread(W, s, w).workers[w] == Claimed(m)
              || (HasClaimed(s, m) && s.workers[w] != Claimed(m))
  {
    var t := StepThread(W, s, w);
    assert forall v :: 0 <= v < |s.workers| && v != w ==> t.workers[v] == s.workers[v];
  }

  lemma {:induction false} StepParses(W: World, s: State, a: Actor, m: Mod)
    requires Enabled(s, a) && Ownership(W, s)
    requires m in s.parses <==> m in s.cache && m in W.uses && !HasClaimed(s, m)
    ensures var t := Step(W, s, a);
            m in t.parses <==> m in t.cache && m in W.uses && !HasClaimed(t, m)
  {
    if a.Thread? {
      StepClaimed(W, s, a.id, m);
      assert OwnerOk(W, s, s.workers[a.id]);
      if HasClaimed(s, m) {
        var v :| 0 <= v < |s.workers| && s.workers[v] == Claimed(m);
        assert OwnerOk(W, s, s.workers[v]);
      }
    }
  }

  lemma {:induction false} StepPushes(W: World, s: State, a: Actor, m: Mod, i: nat)
    requires Enabled(s, a) && Ownership(W, s)
    ensures (m, i) in Step(W, s, a).pushes <==>
              (m, i) in s.pushes || (a.Thread? && s.workers[a.id] == Counted(m, i))
  {
  }

  lemma {:induction false} DistinctMore<T>(q: seq<T>, x: T)
    requires x !in q && forall i, j :: 0 <= i < j < |q| ==> q[i] != q[j]
    ensures var r := q + [x]; forall i, j :: 0 <= i < j < |r| ==> r[i] != r[j]
  {
  }

  lemma {:induction false} StepDistinct(W: World, s: State, a: Actor)
    requires Enabled(s, a) && Ownership(W, s) && Logs(W, s)
    ensures var t := Step(W, s, a);
            && (forall i, j :: 0 <= i < j < |t.parses| ==> t.parses[i] != t.parses[j])
            && (forall i, j :: 0 <= i < j < |t.pushes| ==> t.pushes[i] != t.pushes[j])
            && t.pops + |t.worklist| == 1 + |t.pushes|
  {
    StepRecords(W, s, a);
    StepPops(W, s, a);
    if a.Thread? && s.workers[a.id].Claimed? {
      assert HasClaimed(s, s.workers[a.id].mod);
      DistinctMore(s.parses, s.workers[a.id].mod);
    }
    if a.Thread? && s.workers[a.id].Counted? { NotPushed(W, s, a.id); }
  }

  /** What a step adds to the logs. */
  lemma {:induction false} StepRecords(W: World, s: State, a: Actor)
    requires Enabled(s, a)
    ensures var t, k := Step(W, s, a), if a.Thread? then s.workers[a.id] else AtPop;
            && (if k.Claimed? && k.mod in W.uses then t.parses == s.parses + [k.mod] else t.parses == s.parses)
            && (if k.Counted? then t.pushes == s.pushes + [(k.mod, k.at)] else t.pushes == s.pushes)
  {
  }

  lemma {:induction false} StepPops(W: World, s: State, a: Actor)
    requires Enabled(s, a)
    ensures var t, k := Step(W, s, a), if a.Thread? then s.workers[a.id] else AtPop;
            && (!k.Counted? ==> t.pops + |t.worklist| == s.pops + |s.worklist|)
            && (k.Counted? && k.at < |W.UsesOf(k.mod)| ==> t.pops + |t.worklist| == s.pops + |s.worklist| + 1)
  {
  }

  lemma {:induction false} NotPushed(W: World, s: State, w: nat)
    requires w < |s.workers| && s.workers[w].Counted? && Ownership(W, s) && Logs(W, s)
    ensures var site, r := (s.workers[w].mod, s.workers[w].at), s.pushes + [(s.workers[w].mod, s.workers[w].at)];
            && site !in s.pushes && s.workers[w].at < |W.UsesOf(s.workers[w].mod)|
            && forall i, j :: 0 <= i < j < |r| ==> r[i] != r[j]
  {
    var m, i := s.workers[w].mod, s.workers[w].at;
    assert Owns(s.workers[w], m) && OwnerOk(W, s, s.workers[w]);
    assert !Scanned(s, m, i);
    DistinctMore(s.pushes, (m, i));
  }

  lemma {:induction false} StepInv(W: World, input: Path, s: State, a: Actor)
    requires Enabled(s, a) && Inv(W, input, s)
    ensures Inv(W, input, Step(W, s, a))
  {
    StepCounter(W, s, a);
    StepShutdown(W, s, a);
    StepOwnership(W, s, a);
    StepSoundPaths(W, input, s, a);
    StepSoundTable(W, input, s, a);
    StepComplete(W, input, s, a);
    StepLogs(W, s, a);
  }

  lemma {:induction false} RunInv(W: World, input: Path, s: State, sched: seq<Actor>, t: State)
    requires Inv(W, input, s) && Run(W, s, sched, t)
    ensures Inv(W, input, t)
    decreases |sched|
  {
    if sched != [] {
      StepInv(W, input, s, sched[0]);
      RunInv(W, input, Step(W, s, sched[0]), sched[1..], t);
    }
  }

  // ---------------------------------------------------------------- main results

  /** The counter is exact in every reachable state: waiting paths, plus one per worker
      that holds a path, plus one per import counted but not pushed. */
  lemma {:induction false} CounterIsExact(W: World, input: Path, threads: nat, sched: seq<Actor>, s: State)
    requires Run(W, Init(input, threads), sched, s)
    ensures s.inFlight == |s.worklist| + Held(s.workers)
  {
    InitInv(W, input, threads);
    RunInv(W, input, Init(input, threads), sched, s);
  }

  /** Zero is stable and means quiet: no path is waiting or held, and no later step of any
      thread changes the table, the worklist, the counter or the error flag. */
  lemma {:induction false} ZeroIsStable(W: World, input: Path, threads: nat, sched: seq<Actor>, s: State,
                                        later: seq<Actor>, t: State)
    requires Run(W, Init(input, threads), sched, s) && s.inFlight == 0
    requires Run(W, s, later, t)
    ensures s.worklist == [] && forall w :: 0 <= w < |s.workers| ==> s.workers[w].AtPop? || s.workers[w].Exited?
    ensures t.inFlight == 0 && t.worklist == [] && t.cache == s.cache && t.error == s.error
  {
    InitInv(W, input, threads);
    RunInv(W, input, Init(input, threads), sched, s);
    QuietRun(W, input, s, later, t);
    HeldZero(s.workers);
  }

  lemma {:induction false} QuietStep(W: World, s: State, a: Actor)
    requires Enabled(s, a) && CounterExact(s) && s.inFlight == 0
    ensures var t := Step(W, s, a);
            t.inFlight == 0 && t.worklist == [] && t.cache == s.cache && t.error == s.error
  {
    HeldZero(s.workers);
  }

  lemma {:induction false} QuietRun(W: World, input: Path, s: State, sched: seq<Actor>, t: State)
    requires Inv(W, input, s) && s.inFlight == 0 && Run(W, s, sched, t)
    ensures t.inFlight == 0 && t.worklist == [] && t.cache == s.cache && t.error == s.error
    decreases |sched|
  {
    if sched != [] {
      StepInv(W, input, s, sched[0]);
      QuietStep(W, s, sched[0]);
      QuietRun(W, input, Step(W, s, sched[0]), sched[1..], t);
    } else {
      HeldZero(s.workers);
    }
  }

  /** wl_done never strands a path: once it has been called the worklist is empty for
      good, so a worker that leaves its loop leaves nothing behind. */
  lemma {:induction false} DoneStrandsNothing(W: World, input: Path, threads: nat, sched: seq<Actor>, s: State)
    requires Run(W, Init(input, threads), sched, s)
    requires s.done || exists w :: 0 <= w < |s.workers| && s.workers[w].Exited?
    ensures s.worklist == [] && s.inFlight == 0
    ensures forall w :: 0 <= w < |s.workers| ==> s.workers[w].AtPop? || s.workers[w].Exited?
  {
    InitInv(W, input, threads);
    RunInv(W, input, Init(input, threads), sched, s);
    HeldZero(s.workers);
  }

  /** What mod_cache and the error flag are when the loader is quiet: functions of the
      input file and the file system alone. */
  ghost predicate Outcome(W: World, input: Path, s: State) {
    && (forall m :: m in s.cache <==> ReachedMod(W, input, m))
    && (forall m :: m in s.cache ==> (s.cache[m].Loaded? <==> m in W.uses))
    && (s.error <==> ClosureFails(W, input))
  }

  lemma {:induction false} ChainSettled(W: World, input: Path, s: State, c: seq<Path>)
    requires Inv(W, input, s) && s.inFlight == 0 && Chain(W, input, c)
    ensures var p := c[|c| - 1]; if p in W.resolve then W.resolve[p] in s.cache else s.error
    decreases |c|
  {
    HeldZero(s.workers);
    if |c| > 1 {
      var d := c[..|c| - 1];
      ChainSettled(W, input, s, d);
      var m := W.resolve[d[|d| - 1]];
      assert Imports(W, c[|c| - 2], c[|c| - 1]);
      var i :| 0 <= i < |W.UsesOf(m)| && W.UsesOf(m)[i] == c[|c| - 1];
      assert s.cache[m].Loaded?;
      assert Scanned(s, m, i);
    }
  }

  lemma {:induction false} ClosureInTable(W: World, input: Path, s: State)
    requires Inv(W, input, s) && s.inFlight == 0
    ensures forall m :: ReachedMod(W, input, m) ==> m in s.cache
    ensures ClosureFails(W, input) ==> s.error
  {
    HeldZero(s.workers);
    forall m | ReachedMod(W, input, m) ensures m in s.cache {
      var p :| ReachedPath(W, input, p) && p in W.resolve && W.resolve[p] == m;
      var c :| Chain(W, input, c) && c[|c| - 1] == p;
      ChainSettled(W, input, s, c);
    }
    if ClosureFails(W, input) {
      var p :| ReachedPath(W, input, p) && FailsAt(W, p);
      var c :| Chain(W, input, c) && c[|c| - 1] == p;
      ChainSettled(W, input, s, c);
    }
  }

  /** The end-to-end result: whatever the number of workers and the interleaving, when the
      counter reads 0 the table holds exactly the import closure, the placeholder stays only
      on modules that cannot be loaded, the error flag is up exactly when some path of the
      closure fails, and each module that loads was parsed exactly once. */
  lemma {:induction false} LoaderCorrect(W: World, input: Path, threads: nat, sched: seq<Actor>, s: State)
    requires Run(W, Init(input, threads), sched, s) && s.inFlight == 0
    ensures Outcome(W, input, s)
    ensures !s.error ==> forall m :: m in s.cache ==> s.cache[m].Loaded?
    ensures forall m :: m in W.uses && ReachedMod(W, input, m) ==> multiset(s.parses)[m] == 1
    ensures forall m :: m in s.parses ==> ReachedMod(W, input, m)
  {
    InitInv(W, input, threads);
    RunInv(W, input, Init(input, threads), sched, s);
    HeldZero(s.workers);
    ClosureInTable(W, input, s);
    ParsedOnce(s.parses);
  }

  lemma {:induction false} ParsedOnce<T>(q: seq<T>)
    requires forall i, j :: 0 <= i < j < |q| ==> q[i] != q[j]
    ensures forall x :: x in q ==> multiset(q)[x] == 1
  {
    forall x | x in q ensures multiset(q)[x] == 1 { DistinctCount(q, x); }
  }

  lemma {:induction false} DistinctCount<T>(q: seq<T>, x: T)
    requires forall i, j :: 0 <= i < j < |q| ==> q[i] != q[j]
    requires x in q
    ensures multiset(q)[x] == 1
  {
    assert q == [q[0]] + q[1..];
    if q[0] == x {
      assert x !in q[1..];
    } else {
      DistinctCount(q[1..], x);
    }
  }

  /** Two quiet loaders on the same input agree on the table and the error flag, whatever
      their thread counts and schedules. */
  lemma {:induction false} OutcomeIsScheduleFree(W: World, input: Path, n1: nat, n2: nat,
                              sched1: seq<Actor>, sched2: seq<Actor>, s1: State, s2: State)
    requires Run(W, Init(input, n1), sched1, s1) && s1.inFlight == 0
    requires Run(W, Init(input, n2), sched2, s2) && s2.inFlight == 0
    ensures s1.cache == s2.cache && s1.error == s2.error
  {
    LoaderCorrect(W, input, n1, sched1, s1);
    LoaderCorrect(W, input, n2, sched2, s2);
    assert s1.cache.Keys == s2.cache.Keys;
  }

  // ---------------------------------------------------------------- termination

  /** Steps still owed by a worker, counting what its pushes will cost. */
  function Rank(W: World, k: Worker): int {
    match k
    case Exited => 0
    case AtPop => 1
    case Retiring => 2
    case Popped(_) => 3
    case Claimed(m) => 4 + 5 * |W.UsesOf(m)|
    case Parsed(m) => 3 + 5 * |W.UsesOf(m)|
    case Scanning(m, i) => 2 + 5 * (|W.UsesOf(m)| - i)
    case Counted(m, i) => 1 + 5 * (|W.UsesOf(m)| - i)
  }

  function Ranks(W: World, ws: seq<Worker>): int {
    if ws == [] then 0 else Rank(W, ws[0]) + Ranks(W, ws[1..])
  }

  lemma {:induction false} RanksUpdate(W: World, ws: seq<Worker>, w: nat, k: Worker)
    requires w < |ws|
    ensures Ranks(W, ws[w := k]) + Rank(W, ws[w]) == Ranks(W, ws) + Rank(W, k)
  {
    if w == 0 {
      assert ws[w := k][1..] == ws[1..];
    } else {
      RanksUpdate(W, ws[1..], w - 1, k);
      assert ws[w := k][1..] == ws[1..][w - 1 := k];
    }
  }

  lemma {:induction false} RanksIdle(W: World, ws: seq<Worker>)
    requires forall w :: 0 <= w < |ws| ==> ws[w].AtPop?
    ensures Ranks(W, ws) == |ws|
  {
    if ws != [] { RanksIdle(W, ws[1..]); }
  }

  lemma {:induction false} RanksNonNegative(W: World, s: State, ws: seq<Worker>)
    requires forall w :: 0 <= w < |ws| ==> OwnerOk(W, s, ws[w])
    ensures Ranks(W, ws) >= 0
  {
    if ws != [] {
      RanksNonNegative(W, s, ws[1..]);
      assert OwnerOk(W, s, ws[0]);
    }
  }

  /** What loading the modules of `ms` may still cost. */
  ghost function Credit(W: World, ms: set<Mod>): nat {
    if ms == {} then 0
    else var m :| m in ms; 2 + 5 * |W.UsesOf(m)| + Credit(W, ms - {m})
  }

  lemma {:induction false} CreditRemove(W: World, ms: set<Mod>, m: Mod)
    requires m in ms
    ensures Credit(W, ms) == 2 + 5 * |W.UsesOf(m)| + Credit(W, ms - {m})
    decreases ms
  {
    var k :| k in ms && Credit(W, ms) == 2 + 5 * |W.UsesOf(k)| + Credit(W, ms - {k});
    if k != m {
      CreditRemove(W, ms - {k}, m);
      CreditRemove(W, ms - {m}, k);
      assert ms - {k} - {m} == ms - {m} - {k};
    }
  }

  ghost function Potential(W: World, s: State): int {
    3 * |s.worklist| + Ranks(W, s.workers)
    + (match s.main case Polling => 2 case SawZero => 1 case Signalled => 0)
    + Credit(W, W.resolve.Values - s.cache.Keys)
  }

  lemma {:induction false} StepCredit(W: World, s: State, w: nat)
    requires Enabled(s, Thread(w)) && HandsMatch(W, s)
    ensures Credit(W, W.resolve.Values - s.cache.Keys) ==
              Gain(W, s, s.workers[w]) + Credit(W, W.resolve.Values - StepThread(W, s, w).cache.Keys)
  {
    var t, k := StepThread(W, s, w), s.workers[w];
    assert OwnerOk(W, s, k);
    if k.Popped? && k.path in W.resolve && W.resolve[k.path] !in s.cache {
      var m := W.resolve[k.path];
      CreditRemove(W, W.resolve.Values - s.cache.Keys, m);
      assert W.resolve.Values - t.cache.Keys == W.resolve.Values - s.cache.Keys - {m};
    } else {
      assert t.cache.Keys == s.cache.Keys;
    }
  }

  function Gain(W: World, s: State, k: Worker): nat {
    if k.Popped? && k.path in W.resolve && W.resolve[k.path] !in s.cache
    then 2 + 5 * |W.UsesOf(W.resolve[k.path])| else 0
  }

  lemma {:induction false} StepRank(W: World, s: State, w: nat)
    requires Enabled(s, Thread(w)) && OwnerOk(W, s, s.workers[w])
    ensures var t := StepThread(W, s, w);
            && |t.workers| == |s.workers|
            && 3 * |t.worklist| + Rank(W, t.workers[w])
               < 3 * |s.worklist| + Rank(W, s.workers[w]) + Gain(W, s, s.workers[w])
  {
  }

  lemma {:induction false} StepOwn(W: World, s: State, w: nat)
    requires Enabled(s, Thread(w))
    ensures var t := StepThread(W, s, w);
            t.main == s.main && |t.workers| == |s.workers| && t.workers == s.workers[w := t.workers[w]]
  {
  }

  lemma {:induction false} StepLowersPotential(W: World, s: State, a: Actor)
    requires Enabled(s, a) && HandsMatch(W, s)
    ensures Potential(W, Step(W, s, a)) < Potential(W, s)
    ensures |Step(W, s, a).workers| == |s.workers|
  {
    if a.Thread? {
      assert OwnerOk(W, s, s.workers[a.id]);
      StepRank(W, s, a.id);
      StepOwn(W, s, a.id);
      RanksUpdate(W, s.workers, a.id, Step(W, s, a).workers[a.id]);
      StepCredit(W, s, a.id);
    }
  }

  lemma {:induction false} RunLength(W: World, input: Path, s: State, sched: seq<Actor>, t: State)
    requires Inv(W, input, s) && Run(W, s, sched, t)
    ensures |sched| + Potential(W, t) <= Potential(W, s)
    ensures |t.workers| == |s.workers|
    decreases |sched|
  {
    if sched != [] {
      var u := Step(W, s, sched[0]);
      assert Potential(W, u) < Potential(W, s) && |u.workers| == |s.workers| by {
        StepLowersPotential(W, s, sched[0]);
      }
      StepInv(W, input, s, sched[0]);
      RunLength(W, input, u, sched[1..], t);
    }
  }

  /** No interleaving goes on for ever: a run of any threads has at most as many steps as
      the file system's modules and use statements pay for. */
  lemma {:induction false} RunsAreBounded(W: World, input: Path, threads: nat, sched: seq<Actor>, s: State)
    requires Run(W, Init(input, threads), sched, s)
    ensures |sched| <= 5 + threads + Credit(W, W.resolve.Values)
  {
    InitInv(W, input, threads);
    var s0 := Init(input, threads);
    RunInv(W, input, s0, sched, s);
    RunLength(W, input, s0, sched, s);
    RanksIdle(W, s0.workers);
    RanksNonNegative(W, s, s.workers);
    assert W.resolve.Values - s0.cache.Keys == W.resolve.Values;
  }

  ghost predicate Finished(s: State) {
    s.main.Signalled? && forall w :: 0 <= w < |s.workers| ==> s.workers[w].Exited?
  }

  /** No interleaving gets stuck: until every thread has left, some thread can step. */
  lemma {:induction false} NeverStuck(W: World, input: Path, threads: nat, sched: seq<Actor>, s: State)
    requires threads > 0 && Run(W, Init(input, threads), sched, s)
    ensures Finished(s) || exists a :: Enabled(s, a)
  {
    InitInv(W, input, threads);
    RunInv(W, input, Init(input, threads), sched, s);
    RunLength(W, input, Init(input, threads), sched, s);
    HeldZero(s.workers);
    if s.inFlight == 0 {
      if !s.main.Signalled? {
        assert Enabled(s, Main);
      } else if w :| 0 <= w < |s.workers| && !s.workers[w].Exited? {
        assert Enabled(s, Thread(w));
      }
    } else if w :| 0 <= w < |s.workers| && !s.workers[w].AtPop? && !s.workers[w].Exited? {
      assert Enabled(s, Thread(w));
    } else {
      assert s.workers[0].AtPop?;
      assert Enabled(s, Thread(0));
    }
  }

  lemma {:induction false} RunSnoc(W: World, s: State, sched: seq<Actor>, t: State, a: Actor)
    requires Run(W, s, sched, t) && Enabled(t, a)
    ensures Run(W, s, sched + [a], Step(W, t, a))
    decreases |sched|
  {
    if sched == [] {
      assert (sched + [a])[1..] == [];
    } else {
      RunSnoc(W, Step(W, s, sched[0]), sched[1..], t, a);
      assert (sched + [a])[1..] == sched[1..] + [a];
    }
  }

  /** However the threads have been scheduled so far, letting any of those that can step do so
      again and again ends with all of them gone and the right outcome. */
  lemma {:induction false} EveryRunCanFinish(W: World, input: Path, threads: nat, sched: seq<Actor>, s: State)
    returns (whole: seq<Actor>, t: State)
    requires threads > 0 && Run(W, Init(input, threads), sched, s)
    ensures sched <= whole && Run(W, Init(input, threads), whole, t)
    ensures Finished(t) && t.inFlight == 0 && Outcome(W, input, t)
    decreases 5 + threads + Credit(W, W.resolve.Values) - |sched|
  {
    if Finished(s) {
      whole, t := sched, s;
      InitInv(W, input, threads);
      RunInv(W, input, Init(input, threads), sched, s);
      LoaderCorrect(W, input, threads, sched, s);
    } else {
      NeverStuck(W, input, threads, sched, s);
      var a :| Enabled(s, a);
      RunSnoc(W, Init(input, threads), sched, s, a);
      RunsAreBounded(W, input, threads, sched + [a], Step(W, s, a));
      whole, t := EveryRunCanFinish(W, input, threads, sched + [a], Step(W, s, a));
    }
  }

  /** The use statements of the modules of a table, one pair for each. */
  function UseSites(W: World, ms: set<Mod>): set<(Mod, nat)> {
    set m, i | m in ms && m in W.uses && i in Upto(|W.uses[m]|) :: (m, i)
  }

  function Upto(n: nat): (r: set<nat>)
    ensures forall i: nat :: i in r <==> i < n
  {
    if n == 0 then {} else Upto(n - 1) + {n - 1}
  }

  lemma {:induction false} DistinctCard<T>(q: seq<T>, xs: set<T>)
    requires forall i, j :: 0 <= i < j < |q| ==> q[i] != q[j]
    requires forall x :: x in q <==> x in xs
    ensures |q| == |xs|
    decreases |q|
  {
    if q != [] {
      var rest := xs - {q[0]};
      assert forall x :: x in q[1..] <==> x in rest;
      DistinctCard(q[1..], rest);
    } else {
      assert xs == {};
    }
  }

  /** When nobody holds a module, the use sites pushed are those of the loaded modules. */
  lemma {:induction false} QuietSite(W: World, s: State, m: Mod, i: nat)
    requires Ownership(W, s) && Logs(W, s)
    requires forall w :: 0 <= w < |s.workers| ==> s.workers[w].AtPop? || s.workers[w].Exited?
    ensures (m, i) in s.pushes <==> (m, i) in UseSites(W, s.cache.Keys)
  {
    assert (m, i) in UseSites(W, s.cache.Keys) <==> m in s.cache && m in W.uses && i in Upto(|W.uses[m]|);
  }

  lemma {:induction false} AllPairs<S, T>(q: seq<(S, T)>, xs: set<(S, T)>)
    requires forall a, b :: (a, b) in q <==> (a, b) in xs
    ensures forall x :: x in q <==> x in xs
  {
    forall x ensures x in q <==> x in xs { assert x == (x.0, x.1); }
  }

  /** The work done is exact: once quiet, the paths popped are the input path and one for
      each use statement of each loaded module. */
  lemma {:induction false} PopsAreExact(W: World, input: Path, threads: nat, sched: seq<Actor>, s: State)
    requires Run(W, Init(input, threads), sched, s) && s.inFlight == 0
    ensures s.pops == 1 + |UseSites(W, s.cache.Keys)|
  {
    InitInv(W, input, threads);
    RunInv(W, input, Init(input, threads), sched, s);
    HeldZero(s.workers);
    forall m: Mod, i: nat ensures (m, i) in s.pushes <==> (m, i) in UseSites(W, s.cache.Keys) { QuietSite(W, s, m, i); }
    AllPairs(s.pushes, UseSites(W, s.cache.Keys));
    DistinctCard(s.pushes, UseSites(W, s.cache.Keys));
  }
}
