/**
 The fork/pipe/wait protocol of assignment3/forkbench.c as a state machine over processes and
 pipes. One action is one step of one process, or one `wait` that reaps one exited child; any
 process whose next step is not blocked may move. A child ends after writing its result.
 */
module ForkProtocol {
  import opened Options
  import opened ForkBench

  /** Where a process stands in `forkbench`, with the locals that are live there. */
  datatype Pc =
    | Enter                                   // before the test start >= end
    | Fork1                                   // about to pipe() and fork() the first child
    | Wait1(fd1: nat)                         // wait(NULL) in the first spawnChild
    | Fork2(fd1: nat)                         // about to pipe() and fork() the second child
    | Wait2(fd1: nat, fd2: nat)               // wait(NULL) in the second spawnChild
    | Read1(fd1: nat, fd2: nat)               // readChild(child1)
    | Read2(res1: Result, fd2: nat)           // readChild(child2)
    | Drain1(res1: Result, res2: Result)      // first wait(0)
    | Drain2(res1: Result, res2: Result)      // second wait(0)
    | Return(res: Result)                     // forkbench has returned; a child still has to write
    | Zombie                                  // exited, not reaped yet
  {
    predicate Waiting() { Wait1? || Wait2? }
    predicate Draining() { Drain1? || Drain2? }
  }

  datatype Process = Process(start: int, end: int, parent: Option<nat>, out: Option<nat>, pc: Pc)

  /** A pipe: everything ever written to it, and how many of those results were read. */
  datatype Pipe = Pipe(written: seq<Result>, taken: nat)

  /** `next` is a pid and pipe number not used before; `forks` counts the successful forks. */
  datatype State = State(procs: map<nat, Process>, pipes: map<nat, Pipe>, next: nat, forks: nat)

  datatype Action = Run(p: nat) | Reap(p: nat, child: nat)

  const ROOT: nat := 0

  function Init(start: int, end: int): State {
    State(map[ROOT := Process(start, end, None, None, Enter)], map[], 1, 0)
  }

  predicate IsChild(s: State, p: nat, c: nat) {
    c in s.procs && s.procs[c].parent == Some(p)
  }

  predicate HasChild(s: State, p: nat) {
    exists c :: c in s.procs && IsChild(s, p, c)
  }

  predicate CanRead(s: State, fd: nat) {
    fd in s.pipes && s.pipes[fd].taken < |s.pipes[fd].written|
  }

  /** What the operating system lets happen: `wait` blocks while it has only running children. */
  predicate Enabled(s: State, a: Action) {
    a.p in s.procs &&
    var q := s.procs[a.p];
    match a
    case Reap(p, c) =>
      (q.pc.Waiting() || q.pc.Draining()) && IsChild(s, p, c) && s.procs[c].pc.Zombie?
    case Run(p) =>
      match q.pc
      case Enter => true
      case Fork1 => true
      case Fork2(_) => true
      case Wait1(_) => !HasChild(s, p)
      case Wait2(_, _) => !HasChild(s, p)
      case Drain1(_, _) => !HasChild(s, p)
      case Drain2(_, _) => !HasChild(s, p)
      case Read1(fd1, _) => CanRead(s, fd1)
      case Read2(_, fd2) => CanRead(s, fd2)
      case Return(_) => q.out.Some? && q.out.value in s.pipes
      case Zombie => false
  }

  function AfterWait(pc: Pc): Pc {
    match pc
    case Wait1(fd1) => Fork2(fd1)
    case Wait2(fd1, fd2) => Read1(fd1, fd2)
    case Drain1(res1, res2) => Drain2(res1, res2)
    case Drain2(res1, res2) => Return(Result(res1.sum + res2.sum, res1.num + res2.num + 1))
    case _ => pc
  }

  function SetPc(s: State, p: nat, pc: Pc): State
    requires p in s.procs
  {
    s.(procs := s.procs[p := s.procs[p].(pc := pc)])
  }

  /** pipe() followed by fork(): the child starts on lo..hi and the parent goes to `pc`. */
  function Spawn(s: State, p: nat, lo: int, hi: int, pc: Pc): State
    requires p in s.procs
  {
    var child := Process(lo, hi, Some(p), Some(s.next), Enter);
    State(s.procs[p := s.procs[p].(pc := pc)][s.next := child],
          s.pipes[s.next := Pipe([], 0)], s.next + 1, s.forks + 1)
  }

  function Take(s: State, fd: nat): State
    requires CanRead(s, fd)
  {
    s.(pipes := s.pipes[fd := s.pipes[fd].(taken := s.pipes[fd].taken + 1)])
  }

  function Oldest(s: State, fd: nat): Result
    requires CanRead(s, fd)
  {
    s.pipes[fd].written[s.pipes[fd].taken]
  }

  function Apply(s: State, a: Action): State
    requires Enabled(s, a)
  {
    var q := s.procs[a.p];
    match a
    case Reap(p, c) =>
      s.(procs := s.procs[p := q.(pc := AfterWait(q.pc))] - {c})
    case Run(p) =>
      match q.pc
      case Enter => SetPc(s, p, if q.start >= q.end then Return(Result(q.start, 1)) else Fork1)
      case Fork1 => Spawn(s, p, q.start, Mid(q.start, q.end), Wait1(s.next))
      case Fork2(fd1) => Spawn(s, p, Mid(q.start, q.end) + 1, q.end, Wait2(fd1, s.next))
      case Read1(fd1, fd2) => SetPc(Take(s, fd1), p, Read2(Oldest(s, fd1), fd2))
      case Read2(res1, fd2) => SetPc(Take(s, fd2), p, Drain1(res1, Oldest(s, fd2)))
      case Return(res) =>
        var pipe := s.pipes[q.out.value];
        SetPc(s, p, Zombie).(pipes := s.pipes[q.out.value := pipe.(written := pipe.written + [res])])
      case _ => SetPc(s, p, AfterWait(q.pc))
  }

  /** The state after a schedule, or none if some action was not enabled when its turn came. */
  function Execute(s: State, schedule: seq<Action>): Option<State> {
    if schedule == [] then
      Some(s)
    else
      var t :- Execute(s, schedule[..|schedule| - 1]);
      var a := schedule[|schedule| - 1];
      if Enabled(t, a) then Some(Apply(t, a)) else None
  }

  /** Only the first process is left and it has its result. */
  predicate Finished(s: State) {
    s.procs.Keys == {ROOT} && s.procs[ROOT].pc.Return?
  }

  // -------------------------------------------------------------------------------------------
  // Measures
  // -------------------------------------------------------------------------------------------

  /** How many numbers a process adds up. */
  function Size(start: int, end: int): nat {
    if start < end then end - start + 1 else 1
  }

  function SizeOf(q: Process): nat {
    Size(q.start, q.end)
  }

  function CeilLog2(m: nat): nat {
    if m <= 1 then 0 else 1 + CeilLog2((m + 1) / 2)
  }

  function Pow2(k: nat): nat {
    if k == 0 then 1 else 2 * Pow2(k - 1)
  }

  /** CeilLog2 is the least exponent whose power of two reaches m. */
  lemma {:induction false} CeilLog2IsLeast(m: nat)
    requires m >= 1
    ensures m <= Pow2(CeilLog2(m))
    ensures m >= 2 ==> Pow2(CeilLog2(m) - 1) < m
  {
    if m >= 2 {
      CeilLog2IsLeast((m + 1) / 2);
    }
  }

  lemma {:induction false} CeilLog2Monotone(a: nat, b: nat)
    requires a <= b
    ensures CeilLog2(a) <= CeilLog2(b)
  {
    if a >= 2 {
      CeilLog2Monotone((a + 1) / 2, (b + 1) / 2);
    }
  }

  /** Both halves of a range are one level lower. */
  lemma HalvesAreLower(start: int, end: int)
    requires start < end
    ensures 1 + CeilLog2(Size(start, Mid(start, end))) <= CeilLog2(Size(start, end))
    ensures 1 + CeilLog2(Size(Mid(start, end) + 1, end)) <= CeilLog2(Size(start, end))
    ensures Size(start, Mid(start, end)) + Size(Mid(start, end) + 1, end) == Size(start, end)
  {
    var m := Size(start, end);
    assert Size(start, Mid(start, end)) == (m + 1) / 2;
    CeilLog2Monotone(Size(Mid(start, end) + 1, end), (m + 1) / 2);
  }

  function UpperSize(q: Process): nat {
    Size(Mid(q.start, q.end) + 1, q.end)
  }

  /** The forks that a process, without its present child, still has to bring about. */
  function ForksLeft(q: Process): nat {
    match q.pc
    case Enter => 2 * SizeOf(q) - 2
    case Fork1 => 2 * SizeOf(q) - 2
    case Wait1(_) => 2 * UpperSize(q) - 1
    case Fork2(_) => 2 * UpperSize(q) - 1
    case _ => 0
  }

  /** The actions that a process, without its present child, still has to bring about. */
  function WorkLeft(q: Process): nat {
    match q.pc
    case Enter => 12 * SizeOf(q) - 10
    case Fork1 => 12 * SizeOf(q) - 11
    case Wait1(_) => 12 * UpperSize(q) - 2
    case Fork2(_) => 12 * UpperSize(q) - 3
    case Wait2(_, _) => 6
    case Read1(_, _) => 5
    case Read2(_, _) => 4
    case Drain1(_, _) => 3
    case Drain2(_, _) => 2
    case Return(_) => 1
    case Zombie => 0
  }

  function Total(procs: map<nat, Process>, chain: seq<nat>, left: Process -> nat): nat
    requires forall p :: p in chain ==> p in procs
  {
    if chain == [] then 0
    else Total(procs, chain[..|chain| - 1], left) + left(procs[chain[|chain| - 1]])
  }

  lemma {:induction false} TotalFrame(a: map<nat, Process>, b: map<nat, Process>, chain: seq<nat>, left: Process -> nat)
    requires forall p :: p in chain ==> p in a && p in b && a[p] == b[p]
    ensures Total(a, chain, left) == Total(b, chain, left)
  {
    if chain != [] {
      TotalFrame(a, b, chain[..|chain| - 1], left);
    }
  }

  // -------------------------------------------------------------------------------------------
  // The invariant
  // -------------------------------------------------------------------------------------------

  /** The pipe holds exactly the result of lo..hi, not read yet. */
  predicate Holds(s: State, fd: nat, lo: int, hi: int) {
    fd in s.pipes && s.pipes[fd] == Pipe([Forkbench(lo, hi)], 0)
  }

  predicate Spent(pipe: Pipe) {
    |pipe.written| == 1 && pipe.taken == 1
  }

  /** The pipes a process still has to read, other than that of its present child. */
  function Held(pc: Pc): set<nat> {
    match pc
    case Fork2(fd1) => {fd1}
    case Wait2(fd1, _) => {fd1}
    case Read1(fd1, fd2) => {fd1, fd2}
    case Read2(_, fd2) => {fd2}
    case _ => {}
  }

  /** What process p knows about its own half-finished sum. */
  predicate LocalsOk(s: State, p: nat, q: Process) {
    && (!q.pc.Enter? && !q.pc.Return? && !q.pc.Zombie? ==> q.start < q.end)
    && match q.pc
       case Fork2(fd1) => p < fd1 && Holds(s, fd1, q.start, Mid(q.start, q.end))
       case Wait2(fd1, fd2) => p < fd1 < fd2 && Holds(s, fd1, q.start, Mid(q.start, q.end))
       case Read1(fd1, fd2) =>
         && p < fd1 < fd2
         && Holds(s, fd1, q.start, Mid(q.start, q.end)) && Holds(s, fd2, Mid(q.start, q.end) + 1, q.end)
       case Read2(res1, fd2) =>
         p < fd2 && res1 == Forkbench(q.start, Mid(q.start, q.end)) && Holds(s, fd2, Mid(q.start, q.end) + 1, q.end)
       case Drain1(res1, res2) =>
         res1 == Forkbench(q.start, Mid(q.start, q.end)) && res2 == Forkbench(Mid(q.start, q.end) + 1, q.end)
       case Drain2(res1, res2) =>
         res1 == Forkbench(q.start, Mid(q.start, q.end)) && res2 == Forkbench(Mid(q.start, q.end) + 1, q.end)
       case Return(res) => res == Forkbench(q.start, q.end)
       case _ => true
  }

  /** Process p waits in spawnChild for c, which works on the half p gave it. */
  predicate Awaits(q: Process, c: nat, child: Process) {
    match q.pc
    case Wait1(fd1) => fd1 == c && child.start == q.start && child.end == Mid(q.start, q.end)
    case Wait2(_, fd2) => fd2 == c && child.start == Mid(q.start, q.end) + 1 && child.end == q.end
    case _ => false
  }

  /** The process at place i of the chain. */
  predicate Link(s: State, chain: seq<nat>, i: nat)
    requires i < |chain| && forall p :: p in chain ==> p in s.procs
  {
    var p := chain[i];
    var q := s.procs[p];
    && q.parent == (if i == 0 then None else Some(chain[i - 1]))
    && q.out == (if i == 0 then None else Some(p))
    && LocalsOk(s, p, q)
    && (if i + 1 < |chain| then Awaits(q, chain[i + 1], s.procs[chain[i + 1]]) else !q.pc.Waiting())
    && (i == 0 ==> !q.pc.Zombie?)
    && (i > 0 ==> p in s.pipes &&
                  s.pipes[p] == Pipe(if q.pc.Zombie? then [Forkbench(q.start, q.end)] else [], 0))
  }

  predicate Shape(s: State, chain: seq<nat>) {
    && |chain| > 0 && chain[0] == ROOT
    && (forall i, j :: 0 <= i < j < |chain| ==> chain[i] < chain[j])
    && (forall p :: p in chain ==> p in s.procs && p < s.next)
    && (forall p :: p in s.procs ==> p in chain)
    && (forall f :: f in s.pipes ==> ROOT < f < s.next)
  }

  predicate Links(s: State, chain: seq<nat>)
    requires forall p :: p in chain ==> p in s.procs
  {
    forall i :: 0 <= i < |chain| ==> Link(s, chain, i)
  }

  predicate HeldInChain(s: State, chain: seq<nat>, f: nat)
    requires forall p :: p in chain ==> p in s.procs
  {
    exists i :: 0 <= i < |chain| && f in Held(s.procs[chain[i]].pc)
  }

  /** Every pipe belongs to a child in the chain, or waits to be read, or was written and read once. */
  predicate PipesAccounted(s: State, chain: seq<nat>)
    requires forall p :: p in chain ==> p in s.procs
  {
    forall f :: f in s.pipes ==> f in chain || Spent(s.pipes[f]) || HeldInChain(s, chain, f)
  }

  predicate Levels(s: State, chain: seq<nat>, level: nat)
    requires forall p :: p in chain ==> p in s.procs
  {
    forall i :: 0 <= i < |chain| ==> Level(i, s.procs[chain[i]], level)
  }

  /** At place i of the chain the range has been halved i times. */
  predicate Level(i: nat, q: Process, level: nat) {
    i + CeilLog2(SizeOf(q)) <= level
  }

  /** Everything that holds between two actions; `level` and `forks` belong to the whole job. */
  predicate Inv(s: State, chain: seq<nat>, level: nat, forks: nat) {
    && Shape(s, chain)
    && Links(s, chain)
    && PipesAccounted(s, chain)
    && Levels(s, chain, level)
    && s.forks + Total(s.procs, chain, ForksLeft) == forks
  }

  // -------------------------------------------------------------------------------------------
  // Every enabled action keeps the invariant
  // -------------------------------------------------------------------------------------------

  lemma TotalOfLast(procs: map<nat, Process>, chain: seq<nat>, left: Process -> nat)
    requires chain != [] && forall p :: p in chain ==> p in procs
    ensures Total(procs, chain, left) == Total(procs, chain[..|chain| - 1], left) + left(procs[chain[|chain| - 1]])
  {
  }

  /** Only the last process of the chain and the pipes it alone uses have changed. */
  predicate LocalChange(s: State, t: State, chain: seq<nat>, pc: Pc)
    requires chain != [] && forall p :: p in chain ==> p in s.procs
  {
    var p := chain[|chain| - 1];
    && t.procs == s.procs[p := s.procs[p].(pc := pc)]
    && t.pipes.Keys == s.pipes.Keys
    && (forall f :: f in s.pipes && f !in Held(s.procs[p].pc) && f != p ==> t.pipes[f] == s.pipes[f])
    && (forall f :: f in Held(s.procs[p].pc) && f in t.pipes ==> f in Held(pc) || Spent(t.pipes[f]))
    && ForksLeft(t.procs[p]) == ForksLeft(s.procs[p])
    && t.next == s.next && t.forks == s.forks
  }

  lemma LocalStep(s: State, t: State, chain: seq<nat>, pc: Pc, level: nat, forks: nat)
    requires Inv(s, chain, level, forks) && LocalChange(s, t, chain, pc)
    requires Link(t, chain, |chain| - 1)
    ensures Inv(t, chain, level, forks)
  {
    LocalStepLinks(s, t, chain, pc);
    LocalStepPipes(s, t, chain, pc);
    LocalStepMeasures(s, t, chain, pc, level);
  }

  lemma LocalStepLinks(s: State, t: State, chain: seq<nat>, pc: Pc)
    requires Shape(s, chain) && Links(s, chain) && LocalChange(s, t, chain, pc)
    requires Link(t, chain, |chain| - 1)
    ensures Links(t, chain)
  {
    forall i | 0 <= i < |chain| - 1
      ensures Link(t, chain, i)
    {
      LocalStepLink(s, t, chain, pc, i);
    }
  }

  lemma LocalStepLink(s: State, t: State, chain: seq<nat>, pc: Pc, i: nat)
    requires Shape(s, chain) && LocalChange(s, t, chain, pc)
    requires i < |chain| - 1 && Link(s, chain, i) && Link(s, chain, |chain| - 1)
    ensures Link(t, chain, i)
  {
  }

  // A link that is not the last depends only on its process, its pipes and its child's range.
  lemma LinkFrame(s: State, t: State, chain: seq<nat>, other: seq<nat>, i: nat)
    requires (forall p :: p in chain ==> p in s.procs) && (forall p :: p in other ==> p in t.procs)
    requires i + 1 < |chain| && i + 1 < |other| && Link(s, chain, i)
    requires other[i] == chain[i] && other[i + 1] == chain[i + 1] && (i > 0 ==> other[i - 1] == chain[i - 1])
    requires t.procs[chain[i]] == s.procs[chain[i]]
    requires t.procs[chain[i + 1]].start == s.procs[chain[i + 1]].start
    requires t.procs[chain[i + 1]].end == s.procs[chain[i + 1]].end
    requires forall f :: f in s.pipes && (f in Held(s.procs[chain[i]].pc) || f == chain[i]) ==>
               f in t.pipes && t.pipes[f] == s.pipes[f]
    ensures Link(t, other, i)
  {
  }

  lemma LocalStepPipes(s: State, t: State, chain: seq<nat>, pc: Pc)
    requires Shape(s, chain) && LocalChange(s, t, chain, pc) && PipesAccounted(s, chain)
    ensures PipesAccounted(t, chain)
  {
  }

  lemma LocalStepMeasures(s: State, t: State, chain: seq<nat>, pc: Pc, level: nat)
    requires Shape(s, chain) && LocalChange(s, t, chain, pc) && Levels(s, chain, level)
    ensures Total(t.procs, chain, ForksLeft) == Total(s.procs, chain, ForksLeft)
    ensures Levels(t, chain, level)
  {
    TotalChange(s.procs, t.procs, chain, ForksLeft);
    forall i | 0 <= i < |chain|
      ensures Level(i, t.procs[chain[i]], level)
    {
      assert Level(i, s.procs[chain[i]], level);
    }
  }

  // A total changes by what the last process of the chain changes.
  lemma TotalChange(a: map<nat, Process>, b: map<nat, Process>, chain: seq<nat>, left: Process -> nat)
    requires chain != [] && forall p :: p in chain ==> p in a && p in b
    requires forall i :: 0 <= i < |chain| - 1 ==> a[chain[i]] == b[chain[i]]
    ensures Total(b, chain, left) - left(b[chain[|chain| - 1]]) == Total(a, chain, left) - left(a[chain[|chain| - 1]])
  {
  }

  /** The only process of the chain that can move, or be reaped. */
  function NextAction(s: State, chain: seq<nat>): Action
    requires chain != [] && forall p :: p in chain ==> p in s.procs
  {
    var p := chain[|chain| - 1];
    if s.procs[p].pc.Zombie? && |chain| > 1 then Reap(chain[|chain| - 2], p) else Run(p)
  }

  // The children of a process in the chain: its successor there, and nobody else.
  lemma OnlyChild(s: State, chain: seq<nat>, i: nat, c: nat)
    requires Shape(s, chain) && Links(s, chain) && i < |chain|
    ensures IsChild(s, chain[i], c) <==> i + 1 < |chain| && c == chain[i + 1]
  {
    if i + 1 < |chain| {
      assert Link(s, chain, i + 1);
    }
    if IsChild(s, chain[i], c) {
      var j :| 0 <= j < |chain| && chain[j] == c;
      assert Link(s, chain, j);
      assert chain[j - 1] == chain[i];
      assert j - 1 == i;
    }
  }

  lemma Childless(s: State, chain: seq<nat>)
    requires Shape(s, chain) && Links(s, chain)
    ensures !HasChild(s, chain[|chain| - 1])
  {
    forall c | c in s.procs
      ensures !IsChild(s, chain[|chain| - 1], c)
    {
      OnlyChild(s, chain, |chain| - 1, c);
    }
  }

  /** In every state of the protocol at most one action is possible, and none only at the end. */
  lemma OneAction(s: State, chain: seq<nat>, a: Action)
    requires Shape(s, chain) && Links(s, chain)
    ensures Enabled(s, a) <==> a == NextAction(s, chain) && !Finished(s)
  {
    var n := |chain| - 1;
    assert Link(s, chain, n);
    Childless(s, chain);
    if n > 0 {
      OnlyChild(s, chain, n - 1, chain[n]);
      assert Link(s, chain, n - 1);
      assert ROOT in s.procs && chain[n] in s.procs && chain[n] != ROOT;
    }
    if a.p in s.procs {
      var i :| 0 <= i < |chain| && chain[i] == a.p;
      assert Link(s, chain, i);
      if i < n {
        OnlyChild(s, chain, i, chain[i + 1]);
        if a.Reap? {
          OnlyChild(s, chain, i, a.child);
          assert Link(s, chain, i + 1);
        }
      } else if a.Reap? {
        OnlyChild(s, chain, i, a.child);
      }
    }
    assert n == 0 ==> s.procs.Keys == {ROOT};
  }

  /** A step of the last process that neither forks nor waits for an exited child. */
  lemma KeptByLocalRun(s: State, chain: seq<nat>, level: nat, forks: nat)
    requires Inv(s, chain, level, forks) && CanRunLocally(s, chain)
    ensures var t := Apply(s, Run(chain[|chain| - 1]));
            && Inv(t, chain, level, forks)
            && Total(t.procs, chain, WorkLeft) + 1 == Total(s.procs, chain, WorkLeft)
  {
    var p := chain[|chain| - 1];
    var t := Apply(s, Run(p));
    var pc := t.procs[p].pc;
    assert Link(s, chain, |chain| - 1);
    LocalRunChanges(s, chain);
    LocalStep(s, t, chain, pc, level, forks);
    assert forall i :: 0 <= i < |chain| - 1 ==> chain[i] != p;
    TotalChange(s.procs, t.procs, chain, WorkLeft);
  }

  predicate CanRunLocally(s: State, chain: seq<nat>) {
    && Shape(s, chain) && Link(s, chain, |chain| - 1) && !Finished(s)
    && var p := chain[|chain| - 1];
    && !s.procs[p].pc.Zombie? && !s.procs[p].pc.Fork1? && !s.procs[p].pc.Fork2?
    && Enabled(s, Run(p))
  }

  predicate GoodLocalRun(s: State, chain: seq<nat>)
    requires CanRunLocally(s, chain)
  {
    var p := chain[|chain| - 1];
    var t := Apply(s, Run(p));
    && LocalChange(s, t, chain, t.procs[p].pc)
    && Link(t, chain, |chain| - 1)
    && WorkLeft(t.procs[p]) + 1 == WorkLeft(s.procs[p])
  }

  lemma LocalRunChanges(s: State, chain: seq<nat>)
    requires CanRunLocally(s, chain)
    ensures GoodLocalRun(s, chain)
  {
    var q := s.procs[chain[|chain| - 1]];
    match q.pc
    case Enter => EnterRun(s, chain);
    case Read1(fd1, fd2) => Read1Run(s, chain);
    case Read2(res1, fd2) => Read2Run(s, chain);
    case Return(res) => ReturnRun(s, chain);
    case _ => DrainRun(s, chain);
  }

  lemma EnterRun(s: State, chain: seq<nat>)
    requires CanRunLocally(s, chain) && s.procs[chain[|chain| - 1]].pc.Enter?
    ensures GoodLocalRun(s, chain)
  {
  }

  lemma Read1Run(s: State, chain: seq<nat>)
    requires CanRunLocally(s, chain) && s.procs[chain[|chain| - 1]].pc.Read1?
    ensures GoodLocalRun(s, chain)
  {
  }

  lemma Read2Run(s: State, chain: seq<nat>)
    requires CanRunLocally(s, chain) && s.procs[chain[|chain| - 1]].pc.Read2?
    ensures GoodLocalRun(s, chain)
  {
  }

  lemma ReturnRun(s: State, chain: seq<nat>)
    requires CanRunLocally(s, chain) && s.procs[chain[|chain| - 1]].pc.Return?
    ensures GoodLocalRun(s, chain)
  {
  }

  lemma DrainRun(s: State, chain: seq<nat>)
    requires CanRunLocally(s, chain) && s.procs[chain[|chain| - 1]].pc.Draining()
    ensures GoodLocalRun(s, chain)
  {
  }

  /** A fork: the chain grows by the new child. */
  lemma KeptByFork(s: State, chain: seq<nat>, level: nat, forks: nat)
    requires Inv(s, chain, level, forks) && CanFork(s, chain)
    ensures var t := Forked(s, chain);
            && Inv(t, chain + [s.next], level, forks)
            && Total(t.procs, chain + [s.next], WorkLeft) + 1 == Total(s.procs, chain, WorkLeft)
  {
    ForkShape(s, chain);
    ForkKeepsLinks(s, chain);
    ForkKeepsPipes(s, chain);
    ForkKeepsLevels(s, chain, level);
    ForkPaysDebts(s, chain);
  }

  predicate CanFork(s: State, chain: seq<nat>) {
    && Shape(s, chain)
    && var q := s.procs[chain[|chain| - 1]];
    && (q.pc.Fork1? || q.pc.Fork2?)
    && q.start < q.end
  }

  function Forked(s: State, chain: seq<nat>): State
    requires CanFork(s, chain)
  {
    var p := chain[|chain| - 1];
    var q := s.procs[p];
    if q.pc.Fork1? then Spawn(s, p, q.start, Mid(q.start, q.end), Wait1(s.next))
    else Spawn(s, p, Mid(q.start, q.end) + 1, q.end, Wait2(q.pc.fd1, s.next))
  }

  lemma ForkIsSpawn(s: State, chain: seq<nat>)
    requires CanFork(s, chain)
    ensures Enabled(s, Run(chain[|chain| - 1]))
    ensures Apply(s, Run(chain[|chain| - 1])) == Forked(s, chain)
  {
  }

  lemma ForkShape(s: State, chain: seq<nat>)
    requires CanFork(s, chain)
    ensures Shape(Forked(s, chain), chain + [s.next])
    ensures forall i :: 0 <= i < |chain| - 1 ==> Forked(s, chain).procs[chain[i]] == s.procs[chain[i]]
  {
    var more := chain + [s.next];
    forall i, j | 0 <= i < j < |more|
      ensures more[i] < more[j]
    {
      assert more[i] == chain[i] && chain[i] in chain;
      assert j < |chain| ==> more[j] == chain[j];
    }
    forall p | p in Forked(s, chain).procs
      ensures p in more
    {
      assert p != s.next ==> p in chain;
    }
  }

  lemma ForkKeepsLinks(s: State, chain: seq<nat>)
    requires CanFork(s, chain) && Links(s, chain) && Shape(Forked(s, chain), chain + [s.next])
    ensures Links(Forked(s, chain), chain + [s.next])
  {
    var t, more := Forked(s, chain), chain + [s.next];
    forall i | 0 <= i < |more|
      ensures Link(t, more, i)
    {
      if i < |chain| - 1 {
        ForkKeepsEarlierLink(s, chain, i);
      } else {
        ForkMakesLastLinks(s, chain);
      }
    }
  }

  lemma ForkKeepsEarlierLink(s: State, chain: seq<nat>, i: nat)
    requires CanFork(s, chain) && Shape(Forked(s, chain), chain + [s.next])
    requires i < |chain| - 1 && Links(s, chain)
    ensures Link(Forked(s, chain), chain + [s.next], i)
  {
    assert Link(s, chain, i);
    assert chain[i] < chain[|chain| - 1];
    LinkFrame(s, Forked(s, chain), chain, chain + [s.next], i);
  }

  lemma ForkMakesLastLinks(s: State, chain: seq<nat>)
    requires CanFork(s, chain) && Shape(Forked(s, chain), chain + [s.next])
    requires Links(s, chain)
    ensures Link(Forked(s, chain), chain + [s.next], |chain| - 1)
    ensures Link(Forked(s, chain), chain + [s.next], |chain|)
  {
    assert Link(s, chain, |chain| - 1);
  }

  lemma ForkKeepsPipes(s: State, chain: seq<nat>)
    requires CanFork(s, chain) && PipesAccounted(s, chain)
    requires Shape(Forked(s, chain), chain + [s.next])
    ensures PipesAccounted(Forked(s, chain), chain + [s.next])
  {
    var t, more := Forked(s, chain), chain + [s.next];
    forall f | f in t.pipes && f !in more && !Spent(t.pipes[f])
      ensures HeldInChain(t, more, f)
    {
      var i :| 0 <= i < |chain| && f in Held(s.procs[chain[i]].pc);
      assert more[i] == chain[i] && f in Held(t.procs[chain[i]].pc);
    }
  }

  lemma ForkKeepsLevels(s: State, chain: seq<nat>, level: nat)
    requires CanFork(s, chain) && Levels(s, chain, level)
    requires Shape(Forked(s, chain), chain + [s.next])
    ensures Levels(Forked(s, chain), chain + [s.next], level)
  {
    var t, more := Forked(s, chain), chain + [s.next];
    var q := s.procs[chain[|chain| - 1]];
    assert Level(|chain| - 1, q, level);
    HalvesAreLower(q.start, q.end);
    forall i | 0 <= i < |more|
      ensures Level(i, t.procs[more[i]], level)
    {
      if i < |chain| {
        assert Level(i, s.procs[chain[i]], level);
      }
    }
  }

  // The parent hands over to the child what it owed for that half, less the fork itself.
  lemma ForkPaysDebts(s: State, chain: seq<nat>)
    requires CanFork(s, chain) && Shape(Forked(s, chain), chain + [s.next])
    ensures Total(Forked(s, chain).procs, chain + [s.next], ForksLeft) + 1 == Total(s.procs, chain, ForksLeft)
    ensures Total(Forked(s, chain).procs, chain + [s.next], WorkLeft) + 1 == Total(s.procs, chain, WorkLeft)
  {
    var q := s.procs[chain[|chain| - 1]];
    HalvesAreLower(q.start, q.end);
    ForkTotals(s, chain, ForksLeft);
    ForkTotals(s, chain, WorkLeft);
  }

  lemma ForkTotals(s: State, chain: seq<nat>, left: Process -> nat)
    requires CanFork(s, chain) && Shape(Forked(s, chain), chain + [s.next])
    ensures var t, p := Forked(s, chain), chain[|chain| - 1];
            Total(t.procs, chain + [s.next], left) + left(s.procs[p]) ==
            Total(s.procs, chain, left) + left(t.procs[p]) + left(t.procs[s.next])
  {
    var t, more := Forked(s, chain), chain + [s.next];
    ForkShape(s, chain);
    assert more[..|more| - 1] == chain;
    TotalOfLast(t.procs, more, left);
    TotalChange(s.procs, t.procs, chain, left);
  }

  /** A `wait` that reaps the last process of the chain. */
  lemma KeptByReap(s: State, chain: seq<nat>, level: nat, forks: nat)
    requires Inv(s, chain, level, forks) && CanReap(s, chain)
    ensures var t := Reaped(s, chain);
            && Inv(t, chain[..|chain| - 1], level, forks)
            && Total(t.procs, chain[..|chain| - 1], WorkLeft) + 1 == Total(s.procs, chain, WorkLeft)
  {
    ReapShape(s, chain);
    ReapKeepsLinks(s, chain);
    ReapKeepsPipes(s, chain);
    ReapPaysDebts(s, chain);
    ReapKeepsLevels(s, chain, level);
  }

  predicate CanReap(s: State, chain: seq<nat>) {
    && Shape(s, chain) && |chain| > 1
    && s.procs[chain[|chain| - 1]].pc.Zombie? && s.procs[chain[|chain| - 2]].pc.Waiting()
  }

  function Reaped(s: State, chain: seq<nat>): State
    requires CanReap(s, chain)
  {
    var n := |chain| - 1;
    var q := s.procs[chain[n - 1]];
    s.(procs := s.procs[chain[n - 1] := q.(pc := AfterWait(q.pc))] - {chain[n]})
  }

  lemma ReapIsRemoval(s: State, chain: seq<nat>)
    requires CanReap(s, chain) && Links(s, chain)
    ensures Enabled(s, NextAction(s, chain)) && Apply(s, NextAction(s, chain)) == Reaped(s, chain)
  {
    OnlyChild(s, chain, |chain| - 2, chain[|chain| - 1]);
  }

  lemma ReapShape(s: State, chain: seq<nat>)
    requires CanReap(s, chain)
    ensures Shape(Reaped(s, chain), chain[..|chain| - 1])
    ensures forall i :: 0 <= i < |chain| - 2 ==> Reaped(s, chain).procs[chain[i]] == s.procs[chain[i]]
  {
    var n := |chain| - 1;
    var less := chain[..n];
    forall i, j | 0 <= i < j < n
      ensures less[i] < less[j]
    {
      assert less[i] == chain[i] && less[j] == chain[j];
    }
    forall p | p in less
      ensures p in Reaped(s, chain).procs
    {
      assert p in chain && p != chain[n];
    }
    forall p | p in Reaped(s, chain).procs
      ensures p in less
    {
      var i :| 0 <= i < |chain| && chain[i] == p;
      assert less[i] == p;
    }
  }

  lemma ReapKeepsLinks(s: State, chain: seq<nat>)
    requires CanReap(s, chain) && Links(s, chain) && Shape(Reaped(s, chain), chain[..|chain| - 1])
    ensures Links(Reaped(s, chain), chain[..|chain| - 1])
  {
    var t, less := Reaped(s, chain), chain[..|chain| - 1];
    forall i | 0 <= i < |less|
      ensures Link(t, less, i)
    {
      if i < |less| - 1 {
        ReapKeepsEarlierLink(s, chain, i);
      } else {
        ReapMakesLastLink(s, chain);
      }
    }
  }

  lemma ReapKeepsEarlierLink(s: State, chain: seq<nat>, i: nat)
    requires CanReap(s, chain) && Links(s, chain) && Shape(Reaped(s, chain), chain[..|chain| - 1])
    requires i < |chain| - 2
    ensures Link(Reaped(s, chain), chain[..|chain| - 1], i)
  {
    assert Link(s, chain, i);
    assert chain[i] < chain[|chain| - 2] < chain[|chain| - 1];
    LinkFrame(s, Reaped(s, chain), chain, chain[..|chain| - 1], i);
  }

  lemma ReapMakesLastLink(s: State, chain: seq<nat>)
    requires CanReap(s, chain) && Links(s, chain) && Shape(Reaped(s, chain), chain[..|chain| - 1])
    ensures Link(Reaped(s, chain), chain[..|chain| - 1], |chain| - 2)
  {
    var n := |chain| - 1;
    var c := chain[n];
    var q := s.procs[chain[n - 1]];
    assert Link(s, chain, n - 1);
    assert Link(s, chain, n);
    assert chain[n - 1] < c;
    assert Holds(s, c, s.procs[c].start, s.procs[c].end);
  }

  lemma ReapKeepsPipes(s: State, chain: seq<nat>)
    requires CanReap(s, chain) && Links(s, chain) && PipesAccounted(s, chain)
    requires Shape(Reaped(s, chain), chain[..|chain| - 1])
    ensures PipesAccounted(Reaped(s, chain), chain[..|chain| - 1])
  {
    var n := |chain| - 1;
    var t, less := Reaped(s, chain), chain[..n];
    ReapShape(s, chain);
    forall f | f in t.pipes && f !in less && !Spent(t.pipes[f])
      ensures HeldInChain(t, less, f)
    {
      ReapKeepsPipe(s, chain, f);
    }
  }

  lemma ReapKeepsPipe(s: State, chain: seq<nat>, f: nat)
    requires CanReap(s, chain) && Links(s, chain)
    requires Shape(Reaped(s, chain), chain[..|chain| - 1])
    requires f !in chain[..|chain| - 1] && (f in chain || HeldInChain(s, chain, f))
    ensures HeldInChain(Reaped(s, chain), chain[..|chain| - 1], f)
  {
    var n := |chain| - 1;
    var t, less := Reaped(s, chain), chain[..n];
    assert less[n - 1] == chain[n - 1];
    assert Awaits(s.procs[chain[n - 1]], chain[n], s.procs[chain[n]]) by {
      assert Link(s, chain, n - 1);
    }
    AfterWaitHolds(s.procs[chain[n - 1]], chain[n], s.procs[chain[n]]);
    if f in chain {
      assert f == chain[n];
      assert f in Held(t.procs[less[n - 1]].pc);
    } else {
      var i :| 0 <= i < |chain| && f in Held(s.procs[chain[i]].pc);
      assert i < n && less[i] == chain[i];
      ReapShape(s, chain);
      assert f in Held(t.procs[less[i]].pc);
    }
  }

  // After the wait, the parent also has the pipe of the reaped child to read.
  lemma AfterWaitHolds(q: Process, c: nat, child: Process)
    requires Awaits(q, c, child)
    ensures Held(AfterWait(q.pc)) == Held(q.pc) + {c}
  {
  }

  lemma ReapKeepsLevels(s: State, chain: seq<nat>, level: nat)
    requires CanReap(s, chain) && Levels(s, chain, level) && Shape(Reaped(s, chain), chain[..|chain| - 1])
    ensures Levels(Reaped(s, chain), chain[..|chain| - 1], level)
  {
  }

  // The reaped child owed nothing any more.
  lemma ReapPaysDebts(s: State, chain: seq<nat>)
    requires CanReap(s, chain) && Shape(Reaped(s, chain), chain[..|chain| - 1])
    ensures Total(Reaped(s, chain).procs, chain[..|chain| - 1], ForksLeft) == Total(s.procs, chain, ForksLeft)
    ensures Total(Reaped(s, chain).procs, chain[..|chain| - 1], WorkLeft) + 1 == Total(s.procs, chain, WorkLeft)
  {
    ReapTotals(s, chain, ForksLeft);
    ReapTotals(s, chain, WorkLeft);
  }

  lemma ReapTotals(s: State, chain: seq<nat>, left: Process -> nat)
    requires CanReap(s, chain) && Shape(Reaped(s, chain), chain[..|chain| - 1])
    ensures var t, p, c := Reaped(s, chain), chain[|chain| - 2], chain[|chain| - 1];
            Total(t.procs, chain[..|chain| - 1], left) + left(s.procs[p]) + left(s.procs[c]) ==
            Total(s.procs, chain, left) + left(t.procs[p])
  {
    var t, less := Reaped(s, chain), chain[..|chain| - 1];
    ReapShape(s, chain);
    TotalOfLast(s.procs, chain, left);
    forall i | 0 <= i < |less| - 1
      ensures s.procs[less[i]] == t.procs[less[i]]
    {
      assert less[i] == chain[i];
    }
    TotalChange(s.procs, t.procs, less, left);
  }

  /** Whatever action is possible, it keeps the invariant and does one unit of the work left. */
  lemma StepKeeps(s: State, chain: seq<nat>, a: Action, level: nat, forks: nat) returns (after: seq<nat>)
    requires Inv(s, chain, level, forks) && Enabled(s, a)
    ensures Inv(Apply(s, a), after, level, forks)
    ensures Total(Apply(s, a).procs, after, WorkLeft) + 1 == Total(s.procs, chain, WorkLeft)
  {
    var n := |chain| - 1;
    var q := s.procs[chain[n]];
    OneAction(s, chain, a);
    assert Link(s, chain, n);
    if q.pc.Zombie? {
      assert Link(s, chain, n - 1);
      ReapIsRemoval(s, chain);
      KeptByReap(s, chain, level, forks);
      after := chain[..n];
    } else if q.pc.Fork1? || q.pc.Fork2? {
      ForkIsSpawn(s, chain);
      KeptByFork(s, chain, level, forks);
      after := chain + [s.next];
    } else {
      KeptByLocalRun(s, chain, level, forks);
      after := chain;
    }
  }

  /** The invariant in every state that any schedule reaches. */
  lemma {:induction false} InvReachable(start: int, end: int, schedule: seq<Action>) returns (chain: seq<nat>)
    requires Execute(Init(start, end), schedule).Some?
    ensures var s, n := Execute(Init(start, end), schedule).value, Size(start, end);
            && Inv(s, chain, CeilLog2(n), 2 * n - 2)
            && |schedule| + Total(s.procs, chain, WorkLeft) == 12 * n - 10
  {
    var n := Size(start, end);
    if schedule == [] {
      chain := [ROOT];
      var s := Init(start, end);
      TotalOfLast(s.procs, chain, ForksLeft);
      TotalOfLast(s.procs, chain, WorkLeft);
    } else {
      var before := schedule[..|schedule| - 1];
      var earlier := InvReachable(start, end, before);
      chain := StepKeeps(Execute(Init(start, end), before).value, earlier, schedule[|schedule| - 1],
                         CeilLog2(n), 2 * n - 2);
    }
  }

  // -------------------------------------------------------------------------------------------
  // What this means for every run
  // -------------------------------------------------------------------------------------------

  /** The processes are one line of parents and children; all but the last wait in spawnChild. */
  ghost predicate IsChain(s: State, chain: seq<nat>) {
    && |chain| > 0 && chain[0] == ROOT
    && (forall p :: p in s.procs <==> p in chain)
    && (forall i, j :: 0 <= i < j < |chain| ==> chain[i] != chain[j])
    && (forall i :: 0 <= i < |chain| - 1 ==>
          s.procs[chain[i]].pc.Waiting() && s.procs[chain[i + 1]].parent == Some(chain[i]))
    && !s.procs[chain[|chain| - 1]].pc.Waiting()
  }

  lemma {:induction false} SizeOfElements(chain: seq<nat>, elements: set<nat>)
    requires forall i, j :: 0 <= i < j < |chain| ==> chain[i] != chain[j]
    requires forall p :: p in elements <==> p in chain
    ensures |elements| == |chain|
  {
    if chain == [] {
      assert elements == {};
    } else {
      var last := chain[|chain| - 1];
      assert last in elements;
      SizeOfElements(chain[..|chain| - 1], elements - {last});
    }
  }

  /** In every reachable state the processes form one chain of at most 1 + ceil(log2 n). */
  lemma ProcessesFormOneChain(start: int, end: int, schedule: seq<Action>) returns (chain: seq<nat>)
    requires Execute(Init(start, end), schedule).Some?
    ensures var s := Execute(Init(start, end), schedule).value;
            && IsChain(s, chain)
            && |s.procs| == |chain| <= 1 + CeilLog2(Size(start, end))
  {
    chain := InvReachable(start, end, schedule);
    var s := Execute(Init(start, end), schedule).value;
    assert Level(|chain| - 1, s.procs[chain[|chain| - 1]], CeilLog2(Size(start, end)));
    SizeOfElements(chain, s.procs.Keys);
    forall i | 0 <= i < |chain| - 1
      ensures s.procs[chain[i]].pc.Waiting() && s.procs[chain[i + 1]].parent == Some(chain[i])
    {
      assert Link(s, chain, i) && Link(s, chain, i + 1);
    }
    assert Link(s, chain, |chain| - 1);
  }

  /**
   Every wait in spawnChild has exactly one child to reap; the two waits after the reads, which
   the source says are for the two children, never have any.
   */
  lemma WaitsAreMatched(start: int, end: int, schedule: seq<Action>, p: nat)
    requires Execute(Init(start, end), schedule).Some?
    requires p in Execute(Init(start, end), schedule).value.procs
    ensures var s := Execute(Init(start, end), schedule).value;
            && (s.procs[p].pc.Waiting() ==> exists c :: IsChild(s, p, c) && forall d :: IsChild(s, p, d) ==> d == c)
            && (s.procs[p].pc.Draining() ==> !HasChild(s, p))
  {
    var chain := InvReachable(start, end, schedule);
    var s := Execute(Init(start, end), schedule).value;
    var i :| 0 <= i < |chain| && chain[i] == p;
    assert Link(s, chain, i);
    forall d
      ensures IsChild(s, p, d) <==> i + 1 < |chain| && d == chain[i + 1]
    {
      OnlyChild(s, chain, i, d);
    }
    if i + 1 < |chain| {
      assert IsChild(s, p, chain[i + 1]);
    }
  }

  /** A pipe never carries more than one result, and at the end each has carried one that was read. */
  lemma PipesCarryOneResult(start: int, end: int, schedule: seq<Action>, f: nat)
    requires Execute(Init(start, end), schedule).Some?
    requires f in Execute(Init(start, end), schedule).value.pipes
    ensures var s := Execute(Init(start, end), schedule).value;
            && s.pipes[f].taken <= |s.pipes[f].written| <= 1
            && (Finished(s) ==> Spent(s.pipes[f]))
  {
    var chain := InvReachable(start, end, schedule);
    PipeState(Execute(Init(start, end), schedule).value, chain, f);
  }

  lemma PipeState(s: State, chain: seq<nat>, f: nat)
    requires Shape(s, chain) && Links(s, chain) && PipesAccounted(s, chain) && f in s.pipes
    ensures s.pipes[f].taken <= |s.pipes[f].written| <= 1
    ensures Finished(s) ==> Spent(s.pipes[f])
  {
    if f in chain {
      var i :| 0 <= i < |chain| && chain[i] == f;
      assert Link(s, chain, i);
    } else if !Spent(s.pipes[f]) {
      var i :| 0 <= i < |chain| && f in Held(s.procs[chain[i]].pc);
      HeldPipe(s, chain, i, f);
    }
  }

  lemma HeldPipe(s: State, chain: seq<nat>, i: nat, f: nat)
    requires Shape(s, chain) && Links(s, chain) && i < |chain| && f in Held(s.procs[chain[i]].pc)
    ensures f in s.pipes && |s.pipes[f].written| == 1 && s.pipes[f].taken == 0 && !Finished(s)
  {
    assert Link(s, chain, i);
    assert chain[i] in s.procs;
  }

  /** Some action is possible until the first process has its result, and never more than one. */
  lemma NoDeadlock(start: int, end: int, schedule: seq<Action>) returns (next: Action)
    requires Execute(Init(start, end), schedule).Some?
    ensures var s := Execute(Init(start, end), schedule).value;
            forall a :: Enabled(s, a) <==> a == next && !Finished(s)
  {
    var chain := InvReachable(start, end, schedule);
    var s := Execute(Init(start, end), schedule).value;
    next := NextAction(s, chain);
    forall a
      ensures Enabled(s, a) <==> a == next && !Finished(s)
    {
      OneAction(s, chain, a);
    }
  }

  lemma {:induction false} TotalIsAtLeastFirst(procs: map<nat, Process>, chain: seq<nat>, left: Process -> nat)
    requires chain != [] && forall p :: p in chain ==> p in procs
    ensures Total(procs, chain, left) >= left(procs[chain[0]])
    ensures |chain| > 1 ==>
              Total(procs, chain, left) >= left(procs[chain[0]]) + left(procs[chain[|chain| - 1]])
  {
    if |chain| > 1 {
      TotalIsAtLeastFirst(procs, chain[..|chain| - 1], left);
    }
  }

  /**
   Every run on n numbers ends, after exactly 12n - 11 actions whatever the schedule; it has then
   forked exactly 2n - 2 times, and the first process has what `forkbench` computes.
   */
  lemma EveryRunEnds(start: int, end: int, schedule: seq<Action>)
    requires Execute(Init(start, end), schedule).Some?
    ensures var s, n := Execute(Init(start, end), schedule).value, Size(start, end);
            && |schedule| <= 12 * n - 11
            && (Finished(s) <==> |schedule| == 12 * n - 11)
            && s.forks <= 2 * n - 2
            && (Finished(s) ==> s.forks == 2 * n - 2 && s.procs[ROOT].pc == Return(Forkbench(start, end)))
  {
    var chain := InvReachable(start, end, schedule);
    var s := Execute(Init(start, end), schedule).value;
    RootKeepsItsRange(start, end, schedule);
    assert Link(s, chain, 0);
    TotalIsAtLeastFirst(s.procs, chain, WorkLeft);
    if Finished(s) {
      assert chain[|chain| - 1] in s.procs;
      assert chain == [ROOT];
      TotalOfLast(s.procs, chain, WorkLeft);
      TotalOfLast(s.procs, chain, ForksLeft);
    } else {
      var a := NextAction(s, chain);
      OneAction(s, chain, a);
      var more := StepKeeps(s, chain, a, CeilLog2(Size(start, end)), 2 * Size(start, end) - 2);
      assert Link(Apply(s, a), more, 0);
      TotalIsAtLeastFirst(Apply(s, a).procs, more, WorkLeft);
    }
  }

  lemma {:induction false} RootKeepsItsRange(start: int, end: int, schedule: seq<Action>)
    requires Execute(Init(start, end), schedule).Some?
    ensures var s := Execute(Init(start, end), schedule).value;
            ROOT in s.procs && s.procs[ROOT].start == start && s.procs[ROOT].end == end
  {
    var after := InvReachable(start, end, schedule);
    if schedule != [] {
      var before := schedule[..|schedule| - 1];
      RootKeepsItsRange(start, end, before);
      var s := Execute(Init(start, end), before).value;
      var chain := InvReachable(start, end, before);
      ApplyKeepsRange(s, schedule[|schedule| - 1], ROOT);
    }
  }

  lemma ApplyKeepsRange(s: State, a: Action, p: nat)
    requires Enabled(s, a) && p in s.procs && p != s.next && p in Apply(s, a).procs
    ensures Apply(s, a).procs[p].start == s.procs[p].start && Apply(s, a).procs[p].end == s.procs[p].end
  {
  }
}
