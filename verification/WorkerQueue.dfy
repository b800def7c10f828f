/** The fan-out of core.py: a request's nodes are put into buckets, one worker a bucket;
    the workers put their responses into one shared queue, each ending with a mark, and
    iterate_queue hands out what arrives until every worker's mark has come. */
module WorkerQueue {
  import opened Common

  /** A response or an exception, by whatever identifies it. */
  type Value = string

  /** What is put on the queue: a response, an exception, or 'theend'. The worker it comes
      from is not recorded by the program. */
  datatype Item = Response(from: nat, value: Value) | Failure(from: nat, value: Value) | TheEnd(from: nat)

  /** What a worker still has to put: the rest of its responses, then its exception if it
      raises one, then its mark. */
  datatype Worker = Worker(responses: seq<Value>, failure: Option<Value>, ended: bool)

  datatype Consumer = Running | Raised | Finished

  /** taken is all that get has returned; the responses in it are what the caller was given. */
  datatype System =
    System(workers: seq<Worker>, queue: seq<Item>, taken: seq<Item>, completions: nat, consumer: Consumer)

  datatype Step = Puts(worker: nat) | Gets | Stops

  /** addtoqueue's next put. */
  function NextPut(w: nat, worker: Worker): Item {
    if worker.responses != [] then Response(w, worker.responses[0])
    else match worker.failure
      case Some(e) => Failure(w, e)
      case None => TheEnd(w)
  }

  function AfterPut(worker: Worker): Worker {
    if worker.responses != [] then worker.(responses := worker.responses[1..])
    else if worker.failure.Some? then worker.(failure := None)
    else worker.(ended := true)
  }

  /** get waits for an item; the loop is left once completions has reached numworkers. */
  predicate Enabled(s: System, step: Step) {
    match step
    case Puts(w) => w < |s.workers| && !s.workers[w].ended
    case Gets => s.consumer == Running && s.completions < |s.workers| && s.queue != []
    case Stops => s.consumer == Running && s.completions >= |s.workers|
  }

  function Do(s: System, step: Step): System
    requires Enabled(s, step)
  {
    match step
    case Puts(w) =>
      s.(workers := s.workers[w := AfterPut(s.workers[w])], queue := s.queue + [NextPut(w, s.workers[w])])
    case Gets =>
      var nv := s.queue[0];
      s.(queue := s.queue[1..], taken := s.taken + [nv],
         completions := s.completions + if nv.TheEnd? then 1 else 0,
         consumer := if nv.Failure? then Raised else Running)
    case Stops => s.(consumer := Finished)
  }

  function Run(s: System, steps: seq<Step>): System {
    if steps == [] then s
    else
      var t, step := Run(s, steps[..|steps| - 1]), steps[|steps| - 1];
      if Enabled(t, step) then Do(t, step) else t
  }

  function Start(workers: seq<Worker>): System {
    System(workers, [], [], 0, Running)
  }

  ghost predicate Fresh(workers: seq<Worker>) { forall w :: 0 <= w < |workers| ==> !workers[w].ended }

  // ----- counting marks -----

  function Ends(items: seq<Item>): nat {
    if items == [] then 0 else Ends(items[..|items| - 1]) + if items[|items| - 1].TheEnd? then 1 else 0
  }

  function Unended(workers: seq<Worker>): nat {
    if workers == [] then 0 else Unended(workers[..|workers| - 1]) + if workers[|workers| - 1].ended then 0 else 1
  }

  lemma {:induction false} EndsAppend(a: seq<Item>, b: seq<Item>)
    ensures Ends(a + b) == Ends(a) + Ends(b)
    decreases |b|
  {
    if b == [] {
      assert a + b == a;
    } else {
      assert (a + b)[..|a + b| - 1] == a + b[..|b| - 1];
      EndsAppend(a, b[..|b| - 1]);
    }
  }

  lemma EndsHead(queue: seq<Item>)
    requires queue != []
    ensures Ends(queue) == (if queue[0].TheEnd? then 1 else 0) + Ends(queue[1..])
  {
    assert queue == [queue[0]] + queue[1..];
    EndsAppend([queue[0]], queue[1..]);
    assert [queue[0]][..0] == [];
  }

  lemma {:induction false} UnendedChanges(workers: seq<Worker>, w: nat, worker: Worker)
    requires w < |workers|
    ensures Unended(workers[w := worker]) + (if workers[w].ended then 0 else 1)
         == Unended(workers) + if worker.ended then 0 else 1
    decreases |workers|
  {
    var last := |workers| - 1;
    if w < last {
      assert workers[w := worker][..last] == workers[..last][w := worker];
      UnendedChanges(workers[..last], w, worker);
    } else {
      assert workers[w := worker][..last] == workers[..last];
    }
  }

  lemma {:induction false} AllUnended(workers: seq<Worker>)
    ensures Fresh(workers) ==> Unended(workers) == |workers|
    ensures Unended(workers) > 0 ==> exists w :: 0 <= w < |workers| && !workers[w].ended
    ensures Unended(workers) == 0 ==> forall w :: 0 <= w < |workers| ==> workers[w].ended
  {
    if workers != [] {
      AllUnended(workers[..|workers| - 1]);
    }
  }

  /** Each mark is still to come, in the queue, or counted. */
  ghost predicate Counted(s: System) {
    && s.completions == Ends(s.taken)
    && s.completions + Ends(s.queue) + Unended(s.workers) == |s.workers|
    && (s.consumer == Finished ==> s.completions >= |s.workers|)
  }

  lemma OneEnd(nv: Item)
    ensures Ends([nv]) == if nv.TheEnd? then 1 else 0
  {
    assert [nv][..0] == [];
  }

  lemma StepKeepsCount(s: System, step: Step)
    requires Counted(s) && Enabled(s, step)
    ensures Counted(Do(s, step))
  {
    hide Ends, Unended;
    match step
    case Puts(w) =>
      var nv := NextPut(w, s.workers[w]);
      EndsAppend(s.queue, [nv]);
      OneEnd(nv);
      UnendedChanges(s.workers, w, AfterPut(s.workers[w]));
    case Gets =>
      EndsHead(s.queue);
      EndsAppend(s.taken, [s.queue[0]]);
      OneEnd(s.queue[0]);
    case Stops =>
  }

  // ----- every response once, in its worker's order -----

  /** The items of one worker, in order. */
  function Of(w: nat, items: seq<Item>): seq<Item> {
    if items == [] then []
    else Of(w, items[..|items| - 1]) + if items[|items| - 1].from == w then [items[|items| - 1]] else []
  }

  lemma {:induction false} OfAppend(w: nat, a: seq<Item>, b: seq<Item>)
    ensures Of(w, a + b) == Of(w, a) + Of(w, b)
    decreases |b|
  {
    if b == [] {
      assert a + b == a;
    } else {
      assert (a + b)[..|a + b| - 1] == a + b[..|b| - 1];
      OfAppend(w, a, b[..|b| - 1]);
    }
  }

  function Responses(w: nat, values: seq<Value>): seq<Item> {
    seq(|values|, i requires 0 <= i < |values| => Response(w, values[i]))
  }

  function Ending(w: nat, failure: Option<Value>): seq<Item> {
    match failure
    case Some(e) => [Failure(w, e), TheEnd(w)]
    case None => [TheEnd(w)]
  }

  /** All that a worker puts from now on. */
  function ToCome(w: nat, worker: Worker): seq<Item> {
    if worker.ended then [] else Responses(w, worker.responses) + Ending(w, worker.failure)
  }

  lemma PutIsNext(w: nat, worker: Worker)
    requires !worker.ended
    ensures ToCome(w, worker) == [NextPut(w, worker)] + ToCome(w, AfterPut(worker))
    ensures NextPut(w, worker).from == w
  {
    if worker.responses != [] {
      assert Responses(w, worker.responses) == [Response(w, worker.responses[0])] + Responses(w, worker.responses[1..]);
    } else {
      assert Responses(w, worker.responses) == [];
    }
  }

  /** What one worker has put, and what it has still to put, is what it had to put at first. */
  ghost predicate Conserved(s: System, workers: seq<Worker>) {
    && |s.workers| == |workers|
    && (forall i :: 0 <= i < |s.queue| ==> s.queue[i].from < |workers|)
    && forall w :: 0 <= w < |workers| ==> Of(w, s.taken + s.queue) + ToCome(w, s.workers[w]) == ToCome(w, workers[w])
  }

  /** The first exception taken ends the loop. */
  ghost predicate FailureEnds(s: System) {
    && (s.consumer == Raised ==> s.taken != [])
    && forall i :: 0 <= i < |s.taken| ==> (s.taken[i].Failure? <==> s.consumer == Raised && i == |s.taken| - 1)
  }

  lemma OfOne(w: nat, nv: Item)
    ensures Of(w, [nv]) == if nv.from == w then [nv] else []
  {
    assert [nv][..0] == [];
  }

  lemma StepConserves(s: System, workers: seq<Worker>, step: Step)
    requires Conserved(s, workers) && Enabled(s, step)
    ensures Conserved(Do(s, step), workers)
  {
    hide Of, ToCome;
    match step
    case Puts(v) =>
      var nv := NextPut(v, s.workers[v]);
      var t := Do(s, step);
      assert t.taken + t.queue == s.taken + s.queue + [nv];
      forall w | 0 <= w < |workers|
        ensures Of(w, t.taken + t.queue) + ToCome(w, t.workers[w]) == ToCome(w, workers[w])
      {
        OfAppend(w, s.taken + s.queue, [nv]);
        PutIsNext(v, s.workers[v]);
        OfOne(w, nv);
      }
    case Gets => assert s.taken + [s.queue[0]] + s.queue[1..] == s.taken + s.queue;
    case Stops =>
  }

  lemma Beginning(workers: seq<Worker>)
    requires Fresh(workers)
    ensures Counted(Start(workers)) && Conserved(Start(workers), workers)
  {
    AllUnended(workers);
    assert Start(workers).taken + Start(workers).queue == [];
  }

  lemma {:induction false} RunKeeps(workers: seq<Worker>, steps: seq<Step>)
    requires Fresh(workers)
    ensures var s := Run(Start(workers), steps); Counted(s) && Conserved(s, workers) && FailureEnds(s)
  {
    hide Counted, Conserved;
    if steps == [] {
      Beginning(workers);
    } else {
      var s, step := Run(Start(workers), steps[..|steps| - 1]), steps[|steps| - 1];
      RunKeeps(workers, steps[..|steps| - 1]);
      if Enabled(s, step) {
        StepKeepsCount(s, step);
        StepConserves(s, workers, step);
      }
    }
  }

  /** In no interleaving does get wait for ever: as long as the loop runs, it can go on, or
      there is something to get, or some worker has still something to put. */
  lemma NeverStuck(workers: seq<Worker>, steps: seq<Step>)
    requires Fresh(workers)
    ensures var s := Run(Start(workers), steps);
      s.consumer == Running ==> Enabled(s, Gets) || Enabled(s, Stops) || exists w :: Enabled(s, Puts(w))
  {
    var s := Run(Start(workers), steps);
    RunKeeps(workers, steps);
    AllUnended(s.workers);
    if s.consumer == Running && s.completions < |s.workers| && s.queue == [] {
      var w :| 0 <= w < |s.workers| && !s.workers[w].ended;
      assert Enabled(s, Puts(w));
    }
  }

  ghost predicate Delivered(s: System, workers: seq<Worker>)
    requires |s.workers| == |workers|
  {
    && s.queue == []
    && forall w :: 0 <= w < |workers| ==>
         && s.workers[w].ended && workers[w].failure == None
         && Of(w, s.taken) == Responses(w, workers[w].responses) + [TheEnd(w)]
  }

  lemma FailureIsPut(w: nat, worker: Worker, taken: seq<Item>)
    requires !worker.ended && worker.failure.Some? && Of(w, taken) == ToCome(w, worker)
    ensures exists i :: 0 <= i < |taken| && taken[i].Failure?
  {
    hide Of;
    var f := Failure(w, worker.failure.value);
    assert Of(w, taken)[|worker.responses|] == f;
    OfIsPart(w, taken, f);
  }

  /** When the loop ends, nothing is left behind: the queue is empty, every worker is done,
      and the caller was given every response of every worker once, in the worker's order. */
  lemma EverythingIsDelivered(workers: seq<Worker>, steps: seq<Step>)
    requires Fresh(workers) && Run(Start(workers), steps).consumer == Finished
    ensures var s := Run(Start(workers), steps); |s.workers| == |workers| && Delivered(s, workers)
  {
    var s := Run(Start(workers), steps);
    RunKeeps(workers, steps);
    hide Run, Start, Ends, Unended, Of;
    AllUnended(s.workers);
    assert s.queue == [] by {
      if s.queue != [] {
        LastIsTheEnd(s, workers);
        LastEndCounts(s.queue);
        assert false;
      }
    }
    assert s.taken + s.queue == s.taken;
    forall w | 0 <= w < |workers|
      ensures workers[w].failure == None && Of(w, s.taken) == Responses(w, workers[w].responses) + [TheEnd(w)]
    {
      assert Of(w, s.taken) == ToCome(w, workers[w]);
      if workers[w].failure.Some? {
        FailureIsPut(w, workers[w], s.taken);
      }
    }
  }

  /** When an exception ends the loop, it is the first one taken, and of each worker the
      caller was given a beginning of its responses, none skipped. */
  lemma FailureIsRaised(workers: seq<Worker>, steps: seq<Step>)
    requires Fresh(workers) && Run(Start(workers), steps).consumer == Raised
    ensures var taken := Run(Start(workers), steps).taken;
      && taken != [] && (forall i :: 0 <= i < |taken| ==> (taken[i].Failure? <==> i == |taken| - 1))
      && forall w :: 0 <= w < |workers| ==> Of(w, taken) <= ToCome(w, workers[w])
  {
    var s := Run(Start(workers), steps);
    RunKeeps(workers, steps);
    hide Run, Start, Of, ToCome;
    forall w | 0 <= w < |workers|
      ensures Of(w, s.taken) <= ToCome(w, workers[w])
    {
      OfAppend(w, s.taken, s.queue);
    }
  }

  // ----- no run goes on for ever -----

  function PutsLeft(workers: seq<Worker>): nat {
    if workers == [] then 0
    else
      var w := |workers| - 1;
      PutsLeft(workers[..w]) + |ToCome(w, workers[w])|
  }

  /** What is left to do: every item still to be put is put and taken. */
  function Work(s: System): nat {
    2 * PutsLeft(s.workers) + |s.queue| + if s.consumer == Running then 1 else 0
  }

  lemma {:induction false} PutsLeftChanges(workers: seq<Worker>, w: nat, worker: Worker)
    requires w < |workers|
    ensures PutsLeft(workers[w := worker]) + |ToCome(w, workers[w])| == PutsLeft(workers) + |ToCome(w, worker)|
    decreases |workers|
  {
    hide ToCome;
    var last := |workers| - 1;
    if w < last {
      assert workers[w := worker][..last] == workers[..last][w := worker];
      PutsLeftChanges(workers[..last], w, worker);
    } else {
      assert workers[w := worker][..last] == workers[..last];
    }
  }

  /** Every step of every thread leaves less to do, so with NeverStuck the loop always ends. */
  lemma EveryStepIsProgress(s: System, step: Step)
    requires Enabled(s, step)
    ensures Work(Do(s, step)) < Work(s)
  {
    hide ToCome, PutsLeft;
    if step.Puts? {
      var w := step.worker;
      PutIsNext(w, s.workers[w]);
      PutsLeftChanges(s.workers, w, AfterPut(s.workers[w]));
    }
  }

  lemma LastIsTheEnd(s: System, workers: seq<Worker>)
    requires Fresh(workers) && Conserved(s, workers) && s.queue != []
    requires forall w :: 0 <= w < |s.workers| ==> s.workers[w].ended
    requires forall i :: 0 <= i < |s.queue| ==> s.queue[i].from < |s.workers|
    ensures s.queue[|s.queue| - 1].TheEnd?
  {
    var nv := s.queue[|s.queue| - 1];
    var w := nv.from;
    var all := s.taken + s.queue;
    assert all[|all| - 1] == nv;
    var mine := Of(w, all);
    assert mine == ToCome(w, workers[w]);
    assert mine[|mine| - 1] == nv;
  }

  lemma LastEndCounts(queue: seq<Item>)
    requires queue != [] && queue[|queue| - 1].TheEnd?
    ensures Ends(queue) > 0
  {
  }

  lemma {:induction false} OfIsPart(w: nat, items: seq<Item>, nv: Item)
    requires nv in Of(w, items)
    ensures nv in items
  {
    if items != [] && nv in Of(w, items[..|items| - 1]) {
      OfIsPart(w, items[..|items| - 1], nv);
    }
  }

  // ----- the loop itself -----

  /** The values of the responses, in order. */
  function Given(items: seq<Item>): seq<Value> {
    if items == [] then []
    else
      var nv := items[|items| - 1];
      Given(items[..|items| - 1]) + if nv.Response? then [nv.value] else []
  }

  /** iterate_queue over what arrives; Running means that it waits for more. */
  method IterateQueue(numworkers: nat, arrivals: seq<Item>) returns (given: seq<Value>, taken: nat, outcome: Consumer)
    ensures taken <= |arrivals| && given == Given(arrivals[..taken])
    ensures forall i :: 0 <= i < taken ==> (arrivals[i].Failure? <==> outcome == Raised && i == taken - 1)
    ensures outcome == Raised ==> taken > 0
    ensures outcome == Finished <==> Ends(arrivals[..taken]) == numworkers && outcome != Raised
    ensures outcome == Running ==> taken == |arrivals| && Ends(arrivals) < numworkers
  {
    var completions := 0;
    given, taken := [], 0;
    while completions < numworkers && taken < |arrivals|
      invariant taken <= |arrivals| && completions == Ends(arrivals[..taken]) <= numworkers
      invariant given == Given(arrivals[..taken])
      invariant forall i :: 0 <= i < taken ==> !arrivals[i].Failure?
    {
      var nv := arrivals[taken];
      assert arrivals[..taken + 1][..taken] == arrivals[..taken];
      taken := taken + 1;
      if nv.TheEnd? {
        completions := completions + 1;
      } else if nv.Failure? {
        return given, taken, Raised;
      } else {
        given := given + [nv.value];
      }
    }
    assert taken == |arrivals| ==> arrivals[..taken] == arrivals;
    outcome := if completions < numworkers then Running else Finished;
  }

  // ----- buckets -----

  /** What a bucket is filed under: a plugin's function, or the error of one node. */
  datatype Key = Handler(plugin: string) | BadPlugin(node: string) | BadCollective(node: string)

  /** What the loop looks up for one node: the values of the plugin attributes in order, and
      the manager, empty when there is none. */
  datatype Attrs = Attrs(values: seq<Option<string>>, manager: string)

  datatype Cluster = Cluster(attrs: map<string, Attrs>, default: Option<string>, dispatched: set<string>,
                             plugins: set<string>, myname: string, members: set<string>)

  /** Lines 1160-1165: each attribute that is set replaces the path, and the default stands
      in whenever the path is empty. */
  function PlugPath(values: seq<Option<string>>, default: Option<string>): string {
    if values == [] then ""
    else
      var v := values[|values| - 1];
      var path := if v.Some? then v.value else PlugPath(values[..|values| - 1], default);
      if path == "" && default.Some? then default.value else path
  }

  /** values[i] is the last that is set. */
  predicate LastSet(values: seq<Option<string>>, i: nat) {
    i < |values| && values[i].Some? && forall j :: i < j < |values| ==> values[j] == None
  }

  predicate NoneSet(values: seq<Option<string>>) { forall j :: 0 <= j < |values| ==> values[j] == None }

  /** The plugin's path, said of the whole list: the last attribute that is set names it, and
      the default stands in if that is empty or none is set. */
  lemma {:induction false} PathIs(values: seq<Option<string>>, default: Option<string>)
    requires values != []
    ensures var path, other := PlugPath(values, default), if default.Some? then default.value else "";
      && (forall i: nat :: LastSet(values, i) ==> path == if values[i].value != "" then values[i].value else other)
      && (NoneSet(values) ==> path == other)
  {
    var n := |values| - 1;
    var front := values[..n];
    if front == [] {
      assert PlugPath(front, default) == "";
    } else {
      PathIs(front, default);
    }
    if values[n] == None {
      forall i: nat | LastSet(values, i)
        ensures LastSet(front, i)
      {
      }
      assert NoneSet(values) ==> NoneSet(front);
    } else {
      assert forall i: nat :: LastSet(values, i) ==> i == n;
    }
  }

  method FindPlugPath(values: seq<Option<string>>, default: Option<string>) returns (plugpath: string)
    ensures plugpath == PlugPath(values, default)
  {
    plugpath := "";
    for i := 0 to |values|
      invariant plugpath == PlugPath(values[..i], default)
    {
      assert values[..i + 1][..i] == values[..i];
      if values[i].Some? {
        plugpath := values[i].value;
      }
      if plugpath == "" && default.Some? {
        plugpath := default.value;
      }
    }
    assert values[..|values|] == values;
  }

  /** A node is sent to its manager, filed under a key, or left out. */
  datatype Place = ToManager(name: string) | Under(key: Key) | Nowhere

  function PlaceOf(c: Cluster, node: string): Place
    requires node in c.attrs
  {
    var path, manager := PlugPath(c.attrs[node].values, c.default), c.attrs[node].manager;
    if path in c.dispatched && manager != "" && c.myname != manager then ToManager(manager)
    else if path in c.dispatched && manager == "" && c.members != {} then Under(BadCollective(node))
    else if path == "" then Nowhere
    else if path in c.plugins then Under(Handler(path))
    else Under(BadPlugin(node))
  }

  /** The bucket k has the node n. */
  ghost predicate Has<K>(buckets: map<K, seq<string>>, k: K, n: string) {
    k in buckets && n in buckets[k]
  }

  /** No bucket is empty or has a node twice. */
  ghost predicate Tidy<K>(buckets: map<K, seq<string>>) {
    forall k :: k in buckets ==>
      buckets[k] != [] && forall i, j :: 0 <= i < j < |buckets[k]| ==> buckets[k][i] != buckets[k][j]
  }

  ghost predicate InOrder(some: seq<string>, nodes: seq<string>) {
    forall i, j, a, b :: 0 <= i < j < |some| && 0 <= a < |nodes| && 0 <= b < |nodes| ==>
      (some[i] == nodes[a] && some[j] == nodes[b] ==> a < b)
  }

  /** No bucket has two nodes out of order. */
  ghost predicate Ordered<K>(buckets: map<K, seq<string>>, nodes: seq<string>) {
    forall k :: k in buckets ==> InOrder(buckets[k], nodes)
  }

  /** One more node in a bucket, begun if need be. */
  function Added<K>(buckets: map<K, seq<string>>, k: K, node: string): map<K, seq<string>> {
    buckets[k := (if k in buckets then buckets[k] else []) + [node]]
  }

  lemma AddedHas<K>(buckets: map<K, seq<string>>, k: K, node: string)
    requires Tidy(buckets) && !Has(buckets, k, node)
    ensures Tidy(Added(buckets, k, node))
    ensures forall h, n :: Has(Added(buckets, k, node), h, n) <==> Has(buckets, h, n) || (h == k && n == node)
  {
  }

  lemma OneMoreInOrder(some: seq<string>, nodes: seq<string>, node: string)
    requires InOrder(some, nodes) && node !in nodes && forall n :: n in some ==> n in nodes
    ensures InOrder(some, nodes + [node]) && InOrder(some + [node], nodes + [node])
  {
  }

  lemma OneInOrder(node: string, nodes: seq<string>)
    ensures InOrder([] + [node], nodes)
  {
  }

  lemma AddedIsOrdered<K>(buckets: map<K, seq<string>>, k: K, nodes: seq<string>, node: string)
    requires Ordered(buckets, nodes) && node !in nodes
    requires forall h, n :: Has(buckets, h, n) ==> n in nodes
    ensures Ordered(buckets, nodes + [node]) && Ordered(Added(buckets, k, node), nodes + [node])
  {
    hide InOrder;
    forall h | h in buckets
      ensures InOrder(buckets[h], nodes + [node]) && InOrder(buckets[h] + [node], nodes + [node])
    {
      assert forall n :: n in buckets[h] ==> Has(buckets, h, n);
      OneMoreInOrder(buckets[h], nodes, node);
    }
    OneInOrder(node, nodes + [node]);
  }

  lemma NewBucketIsOrdered<K>(buckets: map<K, seq<string>>, k: K, nodes: seq<string>, node: string)
    requires Ordered(buckets, nodes) && Tidy(buckets) && forall n :: !Has(buckets, k, n)
    ensures Ordered(Added(buckets, k, node), nodes)
  {
    hide InOrder;
    assert forall h :: h in buckets ==> Has(buckets, h, buckets[h][0]);
    OneInOrder(node, nodes);
  }

  lemma NoBuckets<K>()
    ensures Tidy<K>(map[]) && Ordered<K>(map[], []) && forall k: K, n :: !Has(map[], k, n)
  {
  }

  /** Lines 1156-1196: the nodes that belong in a bucket are in it, and no others, so every
      node with a plugin is in exactly one; and no bucket is without a node, so no worker
      is. The sets of nodesbymanager are lists here. */
  method Bucket(c: Cluster, nodes: seq<string>)
    returns (byhandler: map<Key, seq<string>>, bymanager: map<string, seq<string>>)
    requires forall n :: n in nodes ==> n in c.attrs
    requires forall i, j :: 0 <= i < j < |nodes| ==> nodes[i] != nodes[j]
    ensures forall k, n :: Has(byhandler, k, n) <==> n in nodes && PlaceOf(c, n) == Under(k)
    ensures forall m, n :: Has(bymanager, m, n) <==> n in nodes && PlaceOf(c, n) == ToManager(m)
    ensures Tidy(byhandler) && Tidy(bymanager) && Ordered(byhandler, nodes) && Ordered(bymanager, nodes)
  {
    hide PlugPath, Has, Tidy, Added, Ordered;
    byhandler, bymanager := map[], map[];
    var badcollnodes := [];
    NoBuckets<Key>();
    NoBuckets<string>();
    for i := 0 to |nodes|
      invariant forall k, n :: Has(byhandler, k, n) <==>
                  n in nodes[..i] && PlaceOf(c, n) == Under(k) && !k.BadCollective?
      invariant forall m, n :: Has(bymanager, m, n) <==> n in nodes[..i] && PlaceOf(c, n) == ToManager(m)
      invariant forall n :: n in badcollnodes <==> n in nodes[..i] && PlaceOf(c, n) == Under(BadCollective(n))
      invariant forall j, k :: 0 <= j < k < |badcollnodes| ==> badcollnodes[j] != badcollnodes[k]
      invariant Tidy(byhandler) && Tidy(bymanager)
      invariant Ordered(byhandler, nodes[..i]) && Ordered(bymanager, nodes[..i])
    {
      var node := nodes[i];
      assert nodes[..i + 1] == nodes[..i] + [node] && node !in nodes[..i];
      AddedIsOrdered(byhandler, BadPlugin(node), nodes[..i], node);
      AddedIsOrdered(bymanager, "", nodes[..i], node);
      var plugpath := FindPlugPath(c.attrs[node].values, c.default);
      var manager := c.attrs[node].manager;
      if plugpath in c.dispatched && manager != "" && c.myname != manager {
        AddedHas(bymanager, manager, node);
        AddedIsOrdered(bymanager, manager, nodes[..i], node);
        bymanager := Added(bymanager, manager, node);
      } else if plugpath in c.dispatched && manager == "" && c.members != {} {
        badcollnodes := badcollnodes + [node];
      } else if plugpath != "" {
        var k := if plugpath in c.plugins then Handler(plugpath) else BadPlugin(node);
        AddedHas(byhandler, k, node);
        AddedIsOrdered(byhandler, k, nodes[..i], node);
        byhandler := Added(byhandler, k, node);
      }
    }
    assert nodes[..|nodes|] == nodes;
    for i := 0 to |badcollnodes|
      invariant forall k, n :: Has(byhandler, k, n) <==>
        n in nodes && PlaceOf(c, n) == Under(k) && (k.BadCollective? ==> n in badcollnodes[..i])
      invariant Tidy(byhandler) && Ordered(byhandler, nodes)
    {
      var bn := badcollnodes[i];
      assert badcollnodes[..i + 1] == badcollnodes[..i] + [bn] && bn !in badcollnodes[..i] && bn in badcollnodes;
      AddedHas(byhandler, BadCollective(bn), bn);
      NewBucketIsOrdered(byhandler, BadCollective(bn), nodes, bn);
      byhandler := Added(byhandler, BadCollective(bn), bn);
    }
    assert badcollnodes[..|badcollnodes|] == badcollnodes;
  }

  /** The manager that this node must be left to. */
  predicate LeftTo(c: Cluster, n: string, m: string)
    requires n in c.attrs
  {
    PlugPath(c.attrs[n].values, c.default) in c.dispatched && c.attrs[n].manager == m && m != "" && m != c.myname
  }

  /** Nobody else manages the node: its plugin is not one that is sent on, or this member is
      its manager, or there is neither a manager nor a collective. */
  predicate IsOurs(c: Cluster, n: string)
    requires n in c.attrs
  {
    PlugPath(c.attrs[n].values, c.default) !in c.dispatched || c.attrs[n].manager == c.myname != ""
    || (c.attrs[n].manager == "" && c.members == {})
  }

  /** Where the buckets come from: each manager that nodes are left to gets just those; each
      plugin gets our nodes with its path; and the rest are errors of one node each. */
  lemma BucketsAre(c: Cluster, n: string, m: string, p: string)
    requires n in c.attrs && c.myname != ""
    ensures PlaceOf(c, n) == ToManager(m) <==> LeftTo(c, n, m)
    ensures PlaceOf(c, n) == Under(Handler(p)) && p != ""
       <==> IsOurs(c, n) && p in c.plugins && p != "" && PlugPath(c.attrs[n].values, c.default) == p
    ensures PlaceOf(c, n) == Under(BadCollective(n))
       <==> PlugPath(c.attrs[n].values, c.default) in c.dispatched && c.attrs[n].manager == "" && c.members != {}
  {
    hide PlugPath;
  }

  /** What Bucket's result means for one node: with a plugin path it is in exactly one bucket
      of the two maps together, and without one in none. */
  lemma OneBucketEach(c: Cluster, nodes: seq<string>, byhandler: map<Key, seq<string>>,
                      bymanager: map<string, seq<string>>, n: string)
    requires forall n :: n in nodes ==> n in c.attrs
    requires forall k, n :: Has(byhandler, k, n) <==> n in nodes && PlaceOf(c, n) == Under(k)
    requires forall m, n :: Has(bymanager, m, n) <==> n in nodes && PlaceOf(c, n) == ToManager(m)
    requires n in nodes && "" !in c.dispatched
    ensures forall k, k' :: Has(byhandler, k, n) && Has(byhandler, k', n) ==> k == k'
    ensures forall m, m' :: Has(bymanager, m, n) && Has(bymanager, m', n) ==> m == m'
    ensures !((exists k :: Has(byhandler, k, n)) && exists m :: Has(bymanager, m, n))
    ensures PlugPath(c.attrs[n].values, c.default) != ""
       <==> (exists k :: Has(byhandler, k, n)) || exists m :: Has(bymanager, m, n)
  {
    hide PlugPath, Has;
    match PlaceOf(c, n)
    case Under(k) => assert Has(byhandler, k, n);
    case ToManager(m) => assert Has(bymanager, m, n);
    case Nowhere =>
  }
}
