/**
 The pipeline of assignment5/WordCount.java as a distributed system: sources cut their lines into
 tokens, every token travels in a FIFO channel to the worker its word is routed to, workers keep
 running sums and send them to the one window, in any interleaving of these steps. All that is
 assumed of Flink is that equal words go to one worker and that channels keep their order.
 */
module Dataflow {
  import opened Int32
  import opened Options
  import opened Streams
  import opened Tokenizer
  import opened SortedCounts

  /** What the keyed sum emits: every running count, or (in batch mode) the last one of each word. */
  datatype Policy = EveryCount | LastCount

  /** A source: the lines not read yet, and for every worker the tokens under way to it. */
  datatype Source = Source(lines: seq<string>, lanes: seq<seq<string>>)

  /** A worker: its sums, the words whose sum it has sent in batch mode, and the channel to the window. */
  datatype Worker = Worker(counts: map<string, int>, flushed: set<string>, outbox: seq<Entry>)

  datatype State = State(sources: seq<Source>, workers: seq<Worker>, window: seq<Entry>)

  datatype Job = Job(route: string -> nat, workers: nat, policy: Policy)

  datatype Step = Tokenize(i: nat) | Count(i: nat, w: nat) | Flush(w: nat, word: string) | Collect(w: nat)

  ghost predicate IsJob(job: Job) {
    forall word :: job.route(word) < job.workers
  }

  function Init(job: Job, inputs: seq<seq<string>>): State {
    State(seq(|inputs|, i requires 0 <= i < |inputs| => Source(inputs[i], seq(job.workers, _ => []))),
          seq(job.workers, _ => Worker(map[], {}, [])), [])
  }

  function Send(lanes: seq<seq<string>>, tokens: seq<string>, route: string -> nat): seq<seq<string>>
    decreases |tokens|
  {
    if tokens == [] then lanes
    else
      var w := route(tokens[0]);
      Send(if w < |lanes| then lanes[w := lanes[w] + [tokens[0]]] else lanes, tokens[1..], route)
  }

  predicate InputDone(s: State, w: nat) {
    forall i :: 0 <= i < |s.sources| ==>
      s.sources[i].lines == [] && (w < |s.sources[i].lanes| ==> s.sources[i].lanes[w] == [])
  }

  predicate Enabled(job: Job, s: State, step: Step) {
    match step
    case Tokenize(i) => i < |s.sources| && s.sources[i].lines != []
    case Count(i, w) =>
      && i < |s.sources| && w < |s.workers| && w < |s.sources[i].lanes|
      && s.sources[i].lanes[w] != []
    case Flush(w, word) =>
      && job.policy.LastCount? && w < |s.workers| && InputDone(s, w)
      && word in s.workers[w].counts && word !in s.workers[w].flushed
    case Collect(w) => w < |s.workers| && s.workers[w].outbox != []
  }

  /** The keyed `sum(1)` on Java ints. */
  function Sum(counts: map<string, int>, word: string): int {
    Wrap((if word in counts then counts[word] else 0) + 1)
  }

  function Counted(worker: Worker, word: string, policy: Policy): Worker {
    var sum := Sum(worker.counts, word);
    worker.(counts := worker.counts[word := sum],
            outbox := worker.outbox + if policy.EveryCount? then [Entry(word, sum)] else [])
  }

  function Flushed(worker: Worker, word: string): Worker
    requires word in worker.counts
  {
    worker.(flushed := worker.flushed + {word}, outbox := worker.outbox + [Entry(word, worker.counts[word])])
  }

  function Apply(job: Job, s: State, step: Step): State
    requires Enabled(job, s, step)
  {
    match step
    case Tokenize(i) =>
      var src := s.sources[i];
      s.(sources := s.sources[i := Source(src.lines[1..], Send(src.lanes, Tokens(src.lines[0]), job.route))])
    case Count(i, w) =>
      var src := s.sources[i];
      s.(sources := s.sources[i := src.(lanes := src.lanes[w := src.lanes[w][1..]])],
         workers := s.workers[w := Counted(s.workers[w], src.lanes[w][0], job.policy)])
    case Flush(w, word) =>
      s.(workers := s.workers[w := Flushed(s.workers[w], word)])
    case Collect(w) =>
      var worker := s.workers[w];
      s.(workers := s.workers[w := worker.(outbox := worker.outbox[1..])],
         window := s.window + [worker.outbox[0]])
  }

  function Execute(job: Job, s: State, schedule: seq<Step>): Option<State> {
    if schedule == [] then Some(s)
    else
      var t :- Execute(job, s, schedule[..|schedule| - 1]);
      var step := schedule[|schedule| - 1];
      if Enabled(job, t, step) then Some(Apply(job, t, step)) else None
  }

  /** s is a state of the job on these inputs, reached by this schedule. */
  ghost predicate Reaches(job: Job, inputs: seq<seq<string>>, schedule: seq<Step>, s: State) {
    IsJob(job) && Execute(job, Init(job, inputs), schedule) == Some(s)
  }

  predicate Finished(job: Job, s: State) {
    && (forall i :: 0 <= i < |s.sources| ==>
          s.sources[i].lines == [] && forall w :: 0 <= w < |s.sources[i].lanes| ==> s.sources[i].lanes[w] == [])
    && (forall w :: 0 <= w < |s.workers| ==>
          && s.workers[w].outbox == []
          && (job.policy.LastCount? ==> s.workers[w].flushed == s.workers[w].counts.Keys))
  }

  // -------------------------------------------------------------------------------------------
  // Tokens under way
  // -------------------------------------------------------------------------------------------

  function Union(bags: seq<multiset<string>>): multiset<string> {
    if bags == [] then multiset{} else bags[0] + Union(bags[1..])
  }

  lemma {:induction false} UnionUpdate(bags: seq<multiset<string>>, i: nat, bag: multiset<string>)
    requires i < |bags|
    ensures Union(bags[i := bag]) + bags[i] == Union(bags) + bag
  {
    if i == 0 {
      assert bags[i := bag][1..] == bags[1..];
    } else {
      assert bags[i := bag][1..] == bags[1..][i - 1 := bag];
      UnionUpdate(bags[1..], i - 1, bag);
      var rest, rest' := Union(bags[1..]), Union(bags[1..][i - 1 := bag]);
      assert bags[i := bag][0] == bags[0];
      assert bags[0] + rest' + bags[i] == bags[0] + (rest' + bags[i]) == bags[0] + (rest + bag);
    }
  }

  lemma MultisetCancel(a: multiset<string>, b: multiset<string>, c: multiset<string>)
    requires a + c == b + c
    ensures a == b
  {
    assert a == (a + c) - c == (b + c) - c == b;
  }

  function LaneBag(lanes: seq<seq<string>>): multiset<string> {
    Union(seq(|lanes|, w requires 0 <= w < |lanes| => multiset(lanes[w])))
  }

  function SourceBag(src: Source): multiset<string> {
    multiset(TokensOf(src.lines)) + LaneBag(src.lanes)
  }

  /** The tokens still at the sources or in their channels. */
  function Pending(sources: seq<Source>): multiset<string> {
    Union(seq(|sources|, i requires 0 <= i < |sources| => SourceBag(sources[i])))
  }

  /** All tokens of the inputs. */
  function AllTokens(inputs: seq<seq<string>>): multiset<string> {
    Union(seq(|inputs|, i requires 0 <= i < |inputs| => multiset(TokensOf(inputs[i]))))
  }

  lemma LaneBagUpdate(lanes: seq<seq<string>>, w: nat, lane: seq<string>)
    requires w < |lanes|
    ensures LaneBag(lanes[w := lane]) + multiset(lanes[w]) == LaneBag(lanes) + multiset(lane)
  {
    var bags := seq(|lanes|, v requires 0 <= v < |lanes| => multiset(lanes[v]));
    var after := seq(|lanes|, v requires 0 <= v < |lanes| => multiset(lanes[w := lane][v]));
    assert after == bags[w := multiset(lane)];
    UnionUpdate(bags, w, multiset(lane));
    assert LaneBag(lanes) == Union(bags);
    assert LaneBag(lanes[w := lane]) == Union(after);
  }

  lemma PendingUpdate(sources: seq<Source>, i: nat, src: Source)
    requires i < |sources|
    ensures Pending(sources[i := src]) + SourceBag(sources[i]) == Pending(sources) + SourceBag(src)
  {
    var bags := seq(|sources|, j requires 0 <= j < |sources| => SourceBag(sources[j]));
    var after := seq(|sources|, j requires 0 <= j < |sources| => SourceBag(sources[i := src][j]));
    assert after == bags[i := SourceBag(src)];
    UnionUpdate(bags, i, SourceBag(src));
    assert Pending(sources) == Union(bags);
    assert Pending(sources[i := src]) == Union(after);
  }

  predicate Routed(lanes: seq<seq<string>>, route: string -> nat) {
    forall w, k :: 0 <= w < |lanes| && 0 <= k < |lanes[w]| ==> route(lanes[w][k]) == w
  }

  /** Sending loses no token and keeps every token with its worker. */
  lemma {:induction false} SendKeepsTokens(lanes: seq<seq<string>>, tokens: seq<string>, route: string -> nat)
    requires Routed(lanes, route) && forall word :: route(word) < |lanes|
    ensures |Send(lanes, tokens, route)| == |lanes|
    ensures Routed(Send(lanes, tokens, route), route)
    ensures LaneBag(Send(lanes, tokens, route)) == LaneBag(lanes) + multiset(tokens)
    decreases |tokens|
  {
    if tokens != [] {
      var w := route(tokens[0]);
      var more := lanes[w := lanes[w] + [tokens[0]]];
      LaneBagUpdate(lanes, w, lanes[w] + [tokens[0]]);
      assert multiset(lanes[w] + [tokens[0]]) == multiset(lanes[w]) + multiset{tokens[0]};
      MultisetCancel(LaneBag(more), LaneBag(lanes) + multiset{tokens[0]}, multiset(lanes[w]));
      SendKeepsTokens(more, tokens[1..], route);
      assert tokens == [tokens[0]] + tokens[1..];
      assert multiset(tokens) == multiset{tokens[0]} + multiset(tokens[1..]);
    }
  }

  // -------------------------------------------------------------------------------------------
  // The invariant
  // -------------------------------------------------------------------------------------------

  /** The words whose present count is the last one sent to the window. */
  function Published(policy: Policy, worker: Worker): set<string> {
    if policy.EveryCount? then worker.counts.Keys else worker.flushed
  }

  /** Conservation, worker by worker: what has been counted is exactly what is no longer under way. */
  ghost predicate CountsOk(job: Job, all: multiset<string>, pending: multiset<string>, w: nat, worker: Worker) {
    && (forall t :: t in worker.counts <==> job.route(t) == w && all[t] > pending[t])
    && (forall t :: t in worker.counts ==> worker.counts[t] == Wrap(all[t] - pending[t]))
    && worker.flushed <= worker.counts.Keys
  }

  /** `last` has the present count of each published word of the worker, and no other word of it. */
  ghost predicate TrailOk(job: Job, w: nat, worker: Worker, last: map<string, int>) {
    && (forall k :: 0 <= k < |worker.outbox| ==> job.route(worker.outbox[k].word) == w)
    && (forall t :: job.route(t) == w ==> (t in last <==> t in Published(job.policy, worker)))
    && (forall t :: job.route(t) == w && t in worker.counts && t in last ==> last[t] == worker.counts[t])
  }

  /** What the window will have seen last once the worker's channel is empty. */
  function Trail(worker: Worker, window: seq<Entry>): map<string, int> {
    LastCounts(window + worker.outbox)
  }

  ghost predicate Inv(job: Job, all: multiset<string>, s: State) {
    && IsJob(job)
    && |s.workers| == job.workers
    && (forall i :: 0 <= i < |s.sources| ==>
          |s.sources[i].lanes| == job.workers && Routed(s.sources[i].lanes, job.route))
    && Pending(s.sources) <= all
    && (forall w :: 0 <= w < |s.workers| ==>
          && CountsOk(job, all, Pending(s.sources), w, s.workers[w])
          && TrailOk(job, w, s.workers[w], Trail(s.workers[w], s.window))
          && (s.workers[w].flushed == {} || InputDone(s, w)))
  }

  lemma TokenizeKeeps(job: Job, all: multiset<string>, s: State, i: nat)
    requires Inv(job, all, s) && Enabled(job, s, Tokenize(i))
    ensures Inv(job, all, Apply(job, s, Tokenize(i)))
    ensures Pending(Apply(job, s, Tokenize(i)).sources) == Pending(s.sources)
  {
    var src := s.sources[i];
    var tokens := Tokens(src.lines[0]);
    var after := Source(src.lines[1..], Send(src.lanes, tokens, job.route));
    SendKeepsTokens(src.lanes, tokens, job.route);
    assert multiset(TokensOf(src.lines)) == multiset(tokens) + multiset(TokensOf(src.lines[1..]));
    PendingUpdate(s.sources, i, after);
    MultisetCancel(Pending(s.sources[i := after]), Pending(s.sources), SourceBag(src));
  }

  // Receiving a token takes it out of what is under way.
  lemma CountTakesToken(sources: seq<Source>, i: nat, w: nat)
    requires i < |sources| && w < |sources[i].lanes| && sources[i].lanes[w] != []
    ensures var lanes := sources[i].lanes;
            var after := sources[i := sources[i].(lanes := lanes[w := lanes[w][1..]])];
            Pending(after) + multiset{lanes[w][0]} == Pending(sources)
  {
    var src := sources[i];
    var lane := src.lanes[w];
    var after := src.(lanes := src.lanes[w := lane[1..]]);
    LaneBagUpdate(src.lanes, w, lane[1..]);
    PendingUpdate(sources, i, after);
    assert lane == [lane[0]] + lane[1..];
    assert multiset(lane) == multiset{lane[0]} + multiset(lane[1..]);
    MultisetCancel(LaneBag(after.lanes) + multiset{lane[0]}, LaneBag(src.lanes), multiset(lane[1..]));
    MultisetCancel(Pending(sources[i := after]) + multiset{lane[0]}, Pending(sources), SourceBag(after));
  }

  lemma LastCountsAppend(entries: seq<Entry>, e: Entry)
    ensures LastCounts(entries + [e]) == LastCounts(entries)[e.word := e.count]
  {
    assert (entries + [e])[..|entries|] == entries;
  }

  // An entry in the middle changes nothing for other words.
  lemma {:induction false} LastCountsIgnores(a: seq<Entry>, e: Entry, b: seq<Entry>, t: string)
    requires t != e.word
    ensures t in LastCounts(a + [e] + b) <==> t in LastCounts(a + b)
    ensures t in LastCounts(a + b) ==> LastCounts(a + [e] + b)[t] == LastCounts(a + b)[t]
  {
    if b == [] {
      assert a + [e] + b == a + [e] && a + b == a;
      LastCountsAppend(a, e);
    } else {
      var c, last := b[..|b| - 1], b[|b| - 1];
      LastCountsIgnores(a, e, c, t);
      assert a + [e] + b == a + [e] + c + [last] && a + b == a + c + [last];
      LastCountsAppend(a + [e] + c, last);
      LastCountsAppend(a + c, last);
    }
  }

  lemma CountedKeepsTrail(job: Job, w: nat, worker: Worker, window: seq<Entry>, t: string)
    requires TrailOk(job, w, worker, Trail(worker, window)) && job.route(t) == w
    requires worker.flushed <= worker.counts.Keys && (job.policy.LastCount? ==> worker.flushed == {})
    ensures var after := Counted(worker, t, job.policy); TrailOk(job, w, after, Trail(after, window))
  {
    var after := Counted(worker, t, job.policy);
    if job.policy.EveryCount? {
      AppendedTrail(worker, after, window, Entry(t, Sum(worker.counts, t)));
    } else {
      assert worker.outbox + [] == worker.outbox;
    }
  }

  lemma AppendedTrail(worker: Worker, after: Worker, window: seq<Entry>, e: Entry)
    requires after.outbox == worker.outbox + [e]
    ensures Trail(after, window) == Trail(worker, window)[e.word := e.count]
  {
    assert window + after.outbox == window + worker.outbox + [e];
    LastCountsAppend(window + worker.outbox, e);
  }

  lemma CountedKeepsCounts(job: Job, all: multiset<string>, pending: multiset<string>, before: multiset<string>,
                           w: nat, worker: Worker, t: string)
    requires CountsOk(job, all, before, w, worker) && job.route(t) == w
    requires before == pending + multiset{t} && before <= all
    ensures CountsOk(job, all, pending, w, Counted(worker, t, job.policy))
  {
    assert before[t] == pending[t] + 1;
    WrapStep(all[t] - before[t]);
    WrapStep(0);
  }

  lemma OtherKeepsCounts(job: Job, all: multiset<string>, pending: multiset<string>, before: multiset<string>,
                         v: nat, worker: Worker, t: string)
    requires CountsOk(job, all, before, v, worker) && job.route(t) != v
    requires before == pending + multiset{t}
    ensures CountsOk(job, all, pending, v, worker)
  {
    assert forall u :: u != t ==> before[u] == pending[u];
  }

  lemma CountKeeps(job: Job, all: multiset<string>, s: State, i: nat, w: nat)
    requires Inv(job, all, s) && Enabled(job, s, Count(i, w))
    ensures Inv(job, all, Apply(job, s, Count(i, w)))
  {
    var s' := Apply(job, s, Count(i, w));
    CountTakesToken(s.sources, i, w);
    CountKeepsSources(job, all, s, i, w);
    forall v | 0 <= v < |s'.workers|
      ensures CountsOk(job, all, Pending(s'.sources), v, s'.workers[v])
      ensures TrailOk(job, v, s'.workers[v], Trail(s'.workers[v], s'.window))
      ensures s'.workers[v].flushed == {} || InputDone(s', v)
    {
      CountKeepsWorker(job, all, s, i, w, v);
    }
  }

  lemma CountKeepsSources(job: Job, all: multiset<string>, s: State, i: nat, w: nat)
    requires Inv(job, all, s) && Enabled(job, s, Count(i, w))
    ensures var s' := Apply(job, s, Count(i, w));
            && |s'.workers| == |s.workers|
            && (forall j :: 0 <= j < |s'.sources| ==>
                  |s'.sources[j].lanes| == job.workers && Routed(s'.sources[j].lanes, job.route))
            && (forall v: nat :: InputDone(s, v) ==> InputDone(s', v))
  {
    var s' := Apply(job, s, Count(i, w));
    forall j | 0 <= j < |s'.sources|
      ensures |s'.sources[j].lanes| == job.workers && Routed(s'.sources[j].lanes, job.route)
    {
      assert Routed(s.sources[j].lanes, job.route);
    }
  }

  lemma CountKeepsWorker(job: Job, all: multiset<string>, s: State, i: nat, w: nat, v: nat)
    requires Inv(job, all, s) && Enabled(job, s, Count(i, w)) && v < |s.workers|
    ensures var s' := Apply(job, s, Count(i, w));
            && v < |s'.workers|
            && CountsOk(job, all, Pending(s'.sources), v, s'.workers[v])
            && TrailOk(job, v, s'.workers[v], Trail(s'.workers[v], s'.window))
            && (s'.workers[v].flushed == {} || InputDone(s', v))
  {
    var s' := Apply(job, s, Count(i, w));
    var t := s.sources[i].lanes[w][0];
    CountTakesToken(s.sources, i, w);
    CountKeepsSources(job, all, s, i, w);
    assert job.route(t) == w by {
      assert Routed(s.sources[i].lanes, job.route);
    }
    assert CountsOk(job, all, Pending(s.sources), v, s.workers[v]) && TrailOk(job, v, s.workers[v], Trail(s.workers[v], s.window));
    if v == w {
      assert !InputDone(s, w);
      CountedKeepsCounts(job, all, Pending(s'.sources), Pending(s.sources), w, s.workers[w], t);
      CountedKeepsTrail(job, w, s.workers[w], s.window, t);
    } else {
      OtherKeepsCounts(job, all, Pending(s'.sources), Pending(s.sources), v, s.workers[v], t);
    }
  }

  lemma FlushKeepsTrail(job: Job, w: nat, worker: Worker, window: seq<Entry>, word: string)
    requires TrailOk(job, w, worker, Trail(worker, window)) && job.route(word) == w && job.policy.LastCount?
    requires word in worker.counts
    ensures TrailOk(job, w, Flushed(worker, word), Trail(Flushed(worker, word), window))
  {
    AppendedTrail(worker, Flushed(worker, word), window, Entry(word, worker.counts[word]));
  }

  lemma FlushKeeps(job: Job, all: multiset<string>, s: State, w: nat, word: string)
    requires Inv(job, all, s) && Enabled(job, s, Flush(w, word))
    ensures Inv(job, all, Apply(job, s, Flush(w, word)))
  {
    var s' := Apply(job, s, Flush(w, word));
    assert CountsOk(job, all, Pending(s.sources), w, s.workers[w]);
    FlushKeepsTrail(job, w, s.workers[w], s.window, word);
    forall v | 0 <= v < |s'.workers|
      ensures CountsOk(job, all, Pending(s'.sources), v, s'.workers[v])
      ensures TrailOk(job, v, s'.workers[v], Trail(s'.workers[v], s'.window))
      ensures s'.workers[v].flushed == {} || InputDone(s', v)
    {
      assert InputDone(s, v) ==> InputDone(s', v);
      assert CountsOk(job, all, Pending(s.sources), v, s.workers[v]) && TrailOk(job, v, s.workers[v], Trail(s.workers[v], s.window));
    }
  }

  lemma CollectKeepsTrail(job: Job, v: nat, worker: Worker, window: seq<Entry>, e: Entry)
    requires TrailOk(job, v, worker, Trail(worker, window)) && job.route(e.word) != v
    ensures TrailOk(job, v, worker, Trail(worker, window + [e]))
  {
    var last, last' := Trail(worker, window), Trail(worker, window + [e]);
    forall t | job.route(t) == v
      ensures t in last' <==> t in last
      ensures t in last ==> last'[t] == last[t]
    {
      LastCountsIgnores(window, e, worker.outbox, t);
    }
  }

  lemma CollectKeepsWorker(job: Job, all: multiset<string>, s: State, w: nat, v: nat)
    requires Inv(job, all, s) && Enabled(job, s, Collect(w)) && v < |s.workers|
    ensures var s' := Apply(job, s, Collect(w));
            && v < |s'.workers|
            && CountsOk(job, all, Pending(s'.sources), v, s'.workers[v])
            && TrailOk(job, v, s'.workers[v], Trail(s'.workers[v], s'.window))
            && (s'.workers[v].flushed == {} || InputDone(s', v))
  {
    var outbox := s.workers[w].outbox;
    assert CountsOk(job, all, Pending(s.sources), v, s.workers[v]) && TrailOk(job, v, s.workers[v], Trail(s.workers[v], s.window));
    assert TrailOk(job, w, s.workers[w], Trail(s.workers[w], s.window));
    assert InputDone(s, v) ==> InputDone(Apply(job, s, Collect(w)), v);
    if v == w {
      assert s.window + [outbox[0]] + outbox[1..] == s.window + outbox;
    } else {
      CollectKeepsTrail(job, v, s.workers[v], s.window, outbox[0]);
    }
  }

  lemma CollectKeeps(job: Job, all: multiset<string>, s: State, w: nat)
    requires Inv(job, all, s) && Enabled(job, s, Collect(w))
    ensures Inv(job, all, Apply(job, s, Collect(w)))
  {
    var s' := Apply(job, s, Collect(w));
    forall v | 0 <= v < |s'.workers|
      ensures CountsOk(job, all, Pending(s'.sources), v, s'.workers[v])
      ensures TrailOk(job, v, s'.workers[v], Trail(s'.workers[v], s'.window))
      ensures s'.workers[v].flushed == {} || InputDone(s', v)
    {
      CollectKeepsWorker(job, all, s, w, v);
    }
  }

  lemma StepKeeps(job: Job, all: multiset<string>, s: State, step: Step)
    requires Inv(job, all, s) && Enabled(job, s, step)
    ensures Inv(job, all, Apply(job, s, step))
  {
    match step
    case Tokenize(i) => TokenizeKeeps(job, all, s, i);
    case Count(i, w) => CountKeeps(job, all, s, i, w);
    case Flush(w, word) => FlushKeeps(job, all, s, w, word);
    case Collect(w) => CollectKeeps(job, all, s, w);
  }

  // -------------------------------------------------------------------------------------------
  // How many steps are left
  // -------------------------------------------------------------------------------------------

  function LinesLeft(sources: seq<Source>): nat {
    if sources == [] then 0 else |sources[0].lines| + LinesLeft(sources[1..])
  }

  function LineCount(inputs: seq<seq<string>>): nat {
    if inputs == [] then 0 else |inputs[0]| + LineCount(inputs[1..])
  }

  function WorkerLoad(policy: Policy, worker: Worker): nat {
    |worker.outbox| + if policy.LastCount? then 2 * |worker.counts.Keys - worker.flushed| else 0
  }

  function WorkersLoad(policy: Policy, workers: seq<Worker>): nat {
    if workers == [] then 0 else WorkerLoad(policy, workers[0]) + WorkersLoad(policy, workers[1..])
  }

  /** An upper bound on the steps still to come. */
  function Potential(job: Job, s: State): nat {
    LinesLeft(s.sources) + 3 * |Pending(s.sources)| + WorkersLoad(job.policy, s.workers)
  }

  lemma {:induction false} LinesLeftUpdate(sources: seq<Source>, i: nat, src: Source)
    requires i < |sources|
    ensures LinesLeft(sources[i := src]) + |sources[i].lines| == LinesLeft(sources) + |src.lines|
  {
    if i > 0 {
      assert sources[i := src][1..] == sources[1..][i - 1 := src];
      LinesLeftUpdate(sources[1..], i - 1, src);
    } else {
      assert sources[i := src][1..] == sources[1..];
    }
  }

  lemma {:induction false} WorkersLoadUpdate(policy: Policy, workers: seq<Worker>, w: nat, worker: Worker)
    requires w < |workers|
    ensures WorkersLoad(policy, workers[w := worker]) + WorkerLoad(policy, workers[w]) ==
            WorkersLoad(policy, workers) + WorkerLoad(policy, worker)
  {
    if w > 0 {
      assert workers[w := worker][1..] == workers[1..][w - 1 := worker];
      WorkersLoadUpdate(policy, workers[1..], w - 1, worker);
    } else {
      assert workers[w := worker][1..] == workers[1..];
    }
  }

  lemma CountedLoad(policy: Policy, worker: Worker, t: string)
    ensures WorkerLoad(policy, Counted(worker, t, policy)) <= WorkerLoad(policy, worker) + 2
  {
    var after := Counted(worker, t, policy);
    var open, open' := worker.counts.Keys - worker.flushed, after.counts.Keys - worker.flushed;
    assert open' <= open + {t};
    SubsetSize(open', open + {t});
  }

  lemma {:induction false} SubsetSize(a: set<string>, b: set<string>)
    requires a <= b
    ensures |a| <= |b|
  {
    if a != {} {
      var x :| x in a;
      SubsetSize(a - {x}, b - {x});
    }
  }

  lemma StepUsesPotential(job: Job, all: multiset<string>, s: State, step: Step)
    requires Inv(job, all, s) && Enabled(job, s, step)
    ensures Potential(job, Apply(job, s, step)) < Potential(job, s)
  {
    var s' := Apply(job, s, step);
    match step
    case Tokenize(i) =>
      TokenizeKeeps(job, all, s, i);
      LinesLeftUpdate(s.sources, i, s'.sources[i]);
    case Count(i, w) =>
      CountTakesToken(s.sources, i, w);
      var t := s.sources[i].lanes[w][0];
      assert |Pending(s'.sources) + multiset{t}| == |Pending(s'.sources)| + 1;
      LinesLeftUpdate(s.sources, i, s'.sources[i]);
      CountedLoad(job.policy, s.workers[w], t);
      WorkersLoadUpdate(job.policy, s.workers, w, s'.workers[w]);
    case Flush(w, word) =>
      var worker := s.workers[w];
      assert worker.counts.Keys - worker.flushed ==
             (worker.counts.Keys - (worker.flushed + {word})) + {word};
      WorkersLoadUpdate(job.policy, s.workers, w, s'.workers[w]);
    case Collect(w) =>
      WorkersLoadUpdate(job.policy, s.workers, w, s'.workers[w]);
  }

  lemma {:induction false} IdleWorkers(policy: Policy, workers: seq<Worker>)
    requires forall w :: 0 <= w < |workers| ==> workers[w] == Worker(map[], {}, [])
    ensures WorkersLoad(policy, workers) == 0
  {
    if workers != [] {
      IdleWorkers(policy, workers[1..]);
    }
  }

  lemma {:induction false} InitialLines(sources: seq<Source>, inputs: seq<seq<string>>)
    requires |sources| == |inputs| && forall i :: 0 <= i < |inputs| ==> sources[i].lines == inputs[i]
    ensures LinesLeft(sources) == LineCount(inputs)
  {
    if inputs != [] {
      InitialLines(sources[1..], inputs[1..]);
    }
  }

  lemma InitialPotential(job: Job, inputs: seq<seq<string>>)
    ensures Potential(job, Init(job, inputs)) == LineCount(inputs) + 3 * |AllTokens(inputs)|
  {
    PendingInitially(job, inputs);
    InitialLines(Init(job, inputs).sources, inputs);
    IdleWorkers(job.policy, Init(job, inputs).workers);
  }

  lemma {:induction false} UnionOfEmpty(bags: seq<multiset<string>>)
    requires forall k :: 0 <= k < |bags| ==> bags[k] == multiset{}
    ensures Union(bags) == multiset{}
  {
    if bags != [] {
      UnionOfEmpty(bags[1..]);
    }
  }

  lemma EmptyLanes(lanes: seq<seq<string>>)
    requires forall w :: 0 <= w < |lanes| ==> lanes[w] == []
    ensures LaneBag(lanes) == multiset{}
  {
    var bags := seq(|lanes|, w requires 0 <= w < |lanes| => multiset(lanes[w]));
    UnionOfEmpty(bags);
    assert LaneBag(lanes) == Union(bags);
  }

  lemma PendingInitially(job: Job, inputs: seq<seq<string>>)
    ensures Pending(Init(job, inputs).sources) == AllTokens(inputs)
  {
    var sources := Init(job, inputs).sources;
    var bags := seq(|inputs|, i requires 0 <= i < |inputs| => multiset(TokensOf(inputs[i])));
    var pending := seq(|sources|, i requires 0 <= i < |sources| => SourceBag(sources[i]));
    forall i | 0 <= i < |inputs|
      ensures pending[i] == bags[i]
    {
      EmptyLanes(sources[i].lanes);
    }
    assert pending == bags;
    assert Pending(sources) == Union(pending) && AllTokens(inputs) == Union(bags);
  }

  lemma InvInitially(job: Job, inputs: seq<seq<string>>)
    requires IsJob(job)
    ensures Inv(job, AllTokens(inputs), Init(job, inputs))
  {
    var s := Init(job, inputs);
    PendingInitially(job, inputs);
    forall w | 0 <= w < |s.workers|
      ensures CountsOk(job, AllTokens(inputs), Pending(s.sources), w, s.workers[w])
      ensures TrailOk(job, w, s.workers[w], Trail(s.workers[w], s.window))
    {
      assert s.workers[w] == Worker(map[], {}, []);
      assert s.window + s.workers[w].outbox == [];
    }
  }

  lemma {:induction false} InvReachable(job: Job, inputs: seq<seq<string>>, schedule: seq<Step>, s: State)
    requires Reaches(job, inputs, schedule, s)
    ensures Inv(job, AllTokens(inputs), s)
    ensures |schedule| + Potential(job, s) <= Potential(job, Init(job, inputs))
  {
    if schedule == [] {
      InvInitially(job, inputs);
    } else {
      var before := schedule[..|schedule| - 1];
      var t := Execute(job, Init(job, inputs), before).value;
      InvReachable(job, inputs, before, t);
      StepKeeps(job, AllTokens(inputs), t, schedule[|schedule| - 1]);
      StepUsesPotential(job, AllTokens(inputs), t, schedule[|schedule| - 1]);
    }
  }

  // -------------------------------------------------------------------------------------------
  // What this means for every schedule
  // -------------------------------------------------------------------------------------------

  function CountAt(s: State, w: nat, word: string): int {
    if w < |s.workers| && word in s.workers[w].counts then s.workers[w].counts[word] else 0
  }

  /**
   Conservation: in every reachable state, the count of a word at its worker plus its tokens still
   under way is its number of occurrences (as Java ints); no other worker has counted it.
   */
  lemma TokensAreConserved(job: Job, inputs: seq<seq<string>>, schedule: seq<Step>, s: State, word: string)
    requires Reaches(job, inputs, schedule, s)
    ensures Pending(s.sources) <= AllTokens(inputs)
    ensures CountAt(s, job.route(word), word) == Wrap(AllTokens(inputs)[word] - Pending(s.sources)[word])
    ensures AllTokens(inputs)[word] <= MAX ==>
              CountAt(s, job.route(word), word) + Pending(s.sources)[word] == AllTokens(inputs)[word]
    ensures forall w: nat :: w < |s.workers| && word in s.workers[w].counts ==> w == job.route(word)
  {
    InvReachable(job, inputs, schedule, s);
    WordIsConserved(job, AllTokens(inputs), s, word);
  }

  lemma WordIsConserved(job: Job, all: multiset<string>, s: State, word: string)
    requires Inv(job, all, s)
    ensures CountAt(s, job.route(word), word) == Wrap(all[word] - Pending(s.sources)[word])
    ensures all[word] <= MAX ==> CountAt(s, job.route(word), word) + Pending(s.sources)[word] == all[word]
    ensures forall w: nat :: w < |s.workers| && word in s.workers[w].counts ==> w == job.route(word)
  {
    var left := Pending(s.sources)[word];
    var w := job.route(word);
    assert w < |s.workers|;
    assert CountsOk(job, all, Pending(s.sources), w, s.workers[w]);
    assert left <= all[word];
    WrapStep(all[word] - left);
    forall v: nat | v < |s.workers| && word in s.workers[v].counts
      ensures v == w
    {
      assert CountsOk(job, all, Pending(s.sources), v, s.workers[v]);
    }
  }

  /** One pass over the tokens with one table: the sequential word count. */
  function SequentialCounts(tokens: seq<string>): map<string, int> {
    if tokens == [] then map[]
    else
      var counts := SequentialCounts(tokens[..|tokens| - 1]);
      var word := tokens[|tokens| - 1];
      counts[word := Sum(counts, word)]
  }

  lemma {:induction false} SequentialCountsOccurrences(tokens: seq<string>, word: string)
    ensures word in SequentialCounts(tokens) <==> multiset(tokens)[word] > 0
    ensures word in SequentialCounts(tokens) ==> SequentialCounts(tokens)[word] == Wrap(multiset(tokens)[word])
  {
    if tokens != [] {
      var before := tokens[..|tokens| - 1];
      assert tokens == before + [tokens[|tokens| - 1]];
      SequentialCountsOccurrences(before, word);
      WrapStep(multiset(before)[word]);
      WrapStep(0);
    }
  }

  function Concat(inputs: seq<seq<string>>): seq<string> {
    if inputs == [] then [] else TokensOf(inputs[0]) + Concat(inputs[1..])
  }

  lemma {:induction false} ConcatHasAllTokens(inputs: seq<seq<string>>)
    ensures multiset(Concat(inputs)) == AllTokens(inputs)
  {
    if inputs != [] {
      ConcatHasAllTokens(inputs[1..]);
      var bags := seq(|inputs|, i requires 0 <= i < |inputs| => multiset(TokensOf(inputs[i])));
      var rest := seq(|inputs[1..]|, i requires 0 <= i < |inputs[1..]| => multiset(TokensOf(inputs[1..][i])));
      assert bags[1..] == rest;
      assert AllTokens(inputs) == Union(bags) && AllTokens(inputs[1..]) == Union(rest);
    }
  }

  /**
   Whatever the schedule, the routing, the number of workers and the emission policy: at the end
   the window holds, as last counts, exactly the sequential word count of all inputs.
   */
  lemma FinishedRunIsSequential(job: Job, inputs: seq<seq<string>>, schedule: seq<Step>, s: State)
    requires Reaches(job, inputs, schedule, s) && Finished(job, s)
    ensures LastCounts(s.window) == SequentialCounts(Concat(inputs))
  {
    InvReachable(job, inputs, schedule, s);
    FinishedHasNothingPending(job, s);
    ConcatHasAllTokens(inputs);
    forall t: string
      ensures t in LastCounts(s.window) <==> t in SequentialCounts(Concat(inputs))
      ensures t in LastCounts(s.window) ==> LastCounts(s.window)[t] == SequentialCounts(Concat(inputs))[t]
    {
      LastCountAtEnd(job, AllTokens(inputs), s, t);
      SequentialCountsOccurrences(Concat(inputs), t);
    }
  }

  lemma LastCountAtEnd(job: Job, all: multiset<string>, s: State, t: string)
    requires Inv(job, all, s) && Finished(job, s) && Pending(s.sources) == multiset{}
    ensures t in LastCounts(s.window) <==> all[t] > 0
    ensures t in LastCounts(s.window) ==> LastCounts(s.window)[t] == Wrap(all[t])
  {
    var w := job.route(t);
    assert w < |s.workers|;
    assert CountsOk(job, all, Pending(s.sources), w, s.workers[w]) && TrailOk(job, w, s.workers[w], Trail(s.workers[w], s.window));
    assert s.window + s.workers[w].outbox == s.window;
  }

  lemma FinishedHasNothingPending(job: Job, s: State)
    requires Finished(job, s)
    ensures Pending(s.sources) == multiset{}
  {
    var sources := s.sources;
    var bags := seq(|sources|, i requires 0 <= i < |sources| => SourceBag(sources[i]));
    forall i | 0 <= i < |sources|
      ensures bags[i] == multiset{}
    {
      EmptyLanes(sources[i].lanes);
    }
    UnionOfEmpty(bags);
    assert Pending(sources) == Union(bags);
  }

  /** Two finished runs over the same inputs, however different otherwise, write the same output. */
  lemma OutputIsDetermined(job1: Job, schedule1: seq<Step>, s1: State, out1: seq<Entry>,
                           job2: Job, schedule2: seq<Step>, s2: State, out2: seq<Entry>, inputs: seq<seq<string>>)
    requires Reaches(job1, inputs, schedule1, s1) && Finished(job1, s1)
    requires Reaches(job2, inputs, schedule2, s2) && Finished(job2, s2)
    requires IsRankingOf(LastCounts(s1.window), out1) && IsRankingOf(LastCounts(s2.window), out2)
    ensures out1 == out2 && IsRankingOf(SequentialCounts(Concat(inputs)), out1)
  {
    FinishedRunIsSequential(job1, inputs, schedule1, s1);
    FinishedRunIsSequential(job2, inputs, schedule2, s2);
    RankingIsUnique(SequentialCounts(Concat(inputs)), out1, out2);
  }

  /** No reachable state is stuck: until the run is finished, some step is possible. */
  lemma NoDeadlock(job: Job, inputs: seq<seq<string>>, schedule: seq<Step>, s: State) returns (step: Step)
    requires Reaches(job, inputs, schedule, s) && !Finished(job, s)
    ensures Enabled(job, s, step)
  {
    InvReachable(job, inputs, schedule, s);
    step := PossibleStep(job, AllTokens(inputs), s);
  }

  lemma PossibleStep(job: Job, all: multiset<string>, s: State) returns (step: Step)
    requires Inv(job, all, s) && !Finished(job, s)
    ensures Enabled(job, s, step)
  {
    if i :| 0 <= i < |s.sources| && s.sources[i].lines != [] {
      step := Tokenize(i);
    } else if i, w :| 0 <= i < |s.sources| && 0 <= w < |s.sources[i].lanes| && s.sources[i].lanes[w] != [] {
      step := Count(i, w);
    } else if w :| 0 <= w < |s.workers| && s.workers[w].outbox != [] {
      step := Collect(w);
    } else {
      var w :| 0 <= w < |s.workers| && job.policy.LastCount? && s.workers[w].flushed != s.workers[w].counts.Keys;
      var word := UnflushedWord(job, all, Pending(s.sources), w, s.workers[w]);
      step := Flush(w, word);
    }
  }

  lemma UnflushedWord(job: Job, all: multiset<string>, pending: multiset<string>, w: nat, worker: Worker)
    returns (word: string)
    requires CountsOk(job, all, pending, w, worker) && worker.flushed != worker.counts.Keys
    ensures word in worker.counts && word !in worker.flushed
  {
    assert worker.counts.Keys == worker.flushed + (worker.counts.Keys - worker.flushed);
    word :| word in worker.counts.Keys - worker.flushed;
  }

  /** Every run ends: it has at most one step a line and three a token. */
  lemma EveryRunIsBounded(job: Job, inputs: seq<seq<string>>, schedule: seq<Step>, s: State)
    requires Reaches(job, inputs, schedule, s)
    ensures |schedule| <= LineCount(inputs) + 3 * |AllTokens(inputs)|
  {
    InvReachable(job, inputs, schedule, s);
    InitialPotential(job, inputs);
  }
}
