/** One render() pass of a view model, as a function of the node's state,
    and the properties of that pass. The class in abstract_view_model.dfy is
    proved to follow these functions step by step. */
module RenderModel {
  import opened ViewTypes

  /** The effect of running part of a pass: it went on, or an exception left it. */
  datatype Effect = Continue(node: Node) | Abort(node: Node, error: Exn)

  /** A whole pass over the snapshot: it finished, or entry `at` threw. */
  datatype Pass = Finished(node: Node) | Stopped(node: Node, error: Exn, at: nat)

  /** The exception a callback body throws: its first Throw, if any. */
  function Thrown(body: seq<Action>): (r: Option<Exn>)
  {
    if body == [] then None
    else if body[0].Throw? then Some(body[0].error)
    else Thrown(body[1..])
  }

  /** bind(): the node with one more entry, [child, closure] at the bind
      priority, queued after all others; nothing else changes. */
  function Bind(n: Node, child: ViewId, closure: Closure): (r: Node)
  {
    n.(queue := n.queue + [Entry(child, closure, BindPriority)])
  }

  /** setFinal(): the node with its final flag set to `flag`. */
  function SetFinal(n: Node, flag: bool): (r: Node)
  {
    n.(isFinal := Some(flag))
  }

  /** A callback body that never calls bind(). */
  predicate BindsNothing(body: seq<Action>)
  {
    forall j | 0 <= j < |body| :: !body[j].BindChild?
  }

  /** Runs the statements of a callback on the parent node, `arg` being the
      child's output. A nested render() meets the guard, which is set for the
      whole pass, so it yields '' and changes nothing; RenderSelf stores that. */
  function Perform(n: Node, body: seq<Action>, arg: string): (r: Effect)
    ensures r.node.log == n.log && r.node.rendering == n.rendering
    ensures r.Abort? <==> Thrown(body).Some?
    ensures r.Abort? ==> r.error == Thrown(body).value
    decreases |body|
  {
    if body == [] then Continue(n)
    else
      match body[0]
      case Store => Perform(n.(content := arg), body[1..], arg)
      case BindChild(v, cl) => Perform(Bind(n, v, cl), body[1..], arg)
      case MarkFinal(f) => Perform(SetFinal(n, f), body[1..], arg)
      case RenderSelf => Perform(n.(content := ""), body[1..], arg)
      case Throw(x) => Abort(n, x)
  }

  /** The entries a callback body queues through bind(), in order, up to
      its first Throw (the statements after it never run). */
  function Bound(body: seq<Action>): (r: seq<Entry>)
    decreases |body|
  {
    if body == [] then []
    else
      match body[0]
      case BindChild(v, cl) => [Entry(v, cl, BindPriority)] + Bound(body[1..])
      case Throw(_) => []
      case Store => Bound(body[1..])
      case MarkFinal(_) => Bound(body[1..])
      case RenderSelf => Bound(body[1..])
  }

  /** Everything a callback body binds is queued at the bind priority, and
      a body that never calls bind() binds nothing. */
  lemma {:induction false} BoundEntries(body: seq<Action>)
    ensures BindsNothing(body) ==> Bound(body) == []
    ensures forall j | 0 <= j < |Bound(body)| :: Bound(body)[j].priority == BindPriority
    decreases |body|
  {
    if body != [] {
      assert BindsNothing(body) ==> BindsNothing(body[1..]);
      BoundEntries(body[1..]);
    }
  }

  /** A callback changes the queue only by appending, in order, the
      entries its body binds before it throws. */
  lemma {:induction false} PerformQueue(n: Node, body: seq<Action>, arg: string)
    ensures Perform(n, body, arg).node.queue == n.queue + Bound(body)
    decreases |body|
  {
    if body != [] {
      match body[0]
      case Store => PerformQueue(n.(content := arg), body[1..], arg);
      case BindChild(v, cl) =>
        PerformQueue(Bind(n, v, cl), body[1..], arg);
        var e := Entry(v, cl, BindPriority);
        assert n.queue + [e] + Bound(body[1..]) == n.queue + ([e] + Bound(body[1..]));
      case MarkFinal(f) => PerformQueue(SetFinal(n, f), body[1..], arg);
      case RenderSelf => PerformQueue(n.(content := ""), body[1..], arg);
      case Throw(x) =>
    }
  }

  /** Invoking a callback: the invocation is recorded, then its body runs. */
  function Call(n: Node, closure: Closure, arg: string): (r: Effect)
  {
    Perform(n.(log := n.log + [Delivery(closure.tag, arg)]), closure.body, arg)
  }

  /** Processing entry `e`, the k-th of the pass: remove it from the live
      queue, render its child, hand the child's output to its callback. */
  function Step(n: Node, e: Entry, k: nat, c: ChildRender): (r: Effect)
  {
    var live := n.(queue := RemoveFirst(n.queue, e));
    match c(e.child, k)
    case Raised(x) => Abort(live, x)
    case Rendered(t) => Call(live, e.closure, t)
  }

  /** Processes snap[k..] in order, stopping at the first exception. */
  function Run(n: Node, snap: seq<Entry>, k: nat, c: ChildRender): (r: Pass)
    decreases |snap| - k
  {
    if k >= |snap| then Finished(n)
    else
      match Step(n, snap[k], k, c)
      case Abort(n', x) => Stopped(n', x, k)
      case Continue(n') => Run(n', snap, k + 1, c)
  }

  /** render(): the new state of the node and what the call produces. */
  function Render(n: Node, c: ChildRender): (r: (Node, Outcome))
  {
    if n.rendering then (n, Rendered(""))
    else
      match Run(n.(rendering := true), n.queue, 0, c)
      case Finished(n') => (n'.(queue := n.queue, rendering := false), Rendered(""))
      case Stopped(n', x, _) => (n'.(rendering := false), Raised(x))
  }

  /** The exception entry k of queue q raises in a pass, if any: its
      child's, or else its callback's. */
  function EntryError(q: seq<Entry>, k: nat, c: ChildRender): (r: Option<Exn>)
    requires k < |q|
  {
    match c(q[k].child, k)
    case Raised(x) => Some(x)
    case Rendered(_) => Thrown(q[k].closure.body)
  }

  /** The callback invocation entry k of q makes: its callback gets its child's output. */
  function Delivered(q: seq<Entry>, k: nat, c: ChildRender): (r: Delivery)
    requires k < |q|
  {
    Delivery(q[k].closure.tag, c(q[k].child, k).Text())
  }

  /** The invocations entries lo..hi-1 of q make, in queue order. */
  function Deliveries(q: seq<Entry>, lo: nat, hi: nat, c: ChildRender): (r: seq<Delivery>)
    requires lo <= hi <= |q|
    ensures |r| == hi - lo
    ensures forall j | lo <= j < hi :: r[j - lo] == Delivered(q, j, c)
    decreases hi - lo
  {
    if lo == hi then [] else [Delivered(q, lo, c)] + Deliveries(q, lo + 1, hi, c)
  }

  /** The entries entry k of q gets bound when it is processed: those its
      callback binds, if its child rendered; none if the child threw. */
  function EntryBinds(q: seq<Entry>, k: nat, c: ChildRender): (r: seq<Entry>)
    requires k < |q|
  {
    if c(q[k].child, k).Rendered? then Bound(q[k].closure.body) else []
  }

  /** The entries bound while entries lo..hi-1 of q are processed, in order. */
  function BoundDuring(q: seq<Entry>, lo: nat, hi: nat, c: ChildRender): (r: seq<Entry>)
    requires lo <= hi <= |q|
    decreases hi - lo
  {
    if lo == hi then [] else EntryBinds(q, lo, c) + BoundDuring(q, lo + 1, hi, c)
  }

  /** Callbacks that never call bind() leave nothing bound behind them. */
  lemma {:induction false} NothingBound(q: seq<Entry>, lo: nat, hi: nat, c: ChildRender)
    requires lo <= hi <= |q|
    requires forall j | lo <= j < hi :: BindsNothing(q[j].closure.body)
    ensures BoundDuring(q, lo, hi, c) == []
    decreases hi - lo
  {
    if lo < hi {
      BoundEntries(q[lo].closure.body);
      NothingBound(q, lo + 1, hi, c);
    }
  }

  /** One step of a pass takes entry k, at the head of the live queue, out
      of it, and appends what its callback binds; the unvisited entries and
      those bound earlier keep their place. */
  lemma StepQueue(n: Node, snap: seq<Entry>, k: nat, t: seq<Entry>, c: ChildRender)
    requires k < |snap| && n.queue == snap[k..] + t
    ensures Step(n, snap[k], k, c).node.queue == snap[k + 1..] + t + EntryBinds(snap, k, c)
  {
    var q := n.queue;
    assert q[0] == snap[k];
    assert RemoveFirst(q, snap[k]) == q[1..] == snap[k + 1..] + t;
    var live := n.(queue := q[1..]);
    match c(snap[k].child, k)
    case Raised(x) =>
    case Rendered(s) =>
      var called := live.(log := live.log + [Delivery(snap[k].closure.tag, s)]);
      PerformQueue(called, snap[k].closure.body, s);
  }

  /** One step of a pass leaves the guard alone, aborts exactly when entry k
      raises, with that exception, and invokes entry k's callback once, with
      its child's output, whenever that child rendered. */
  lemma StepOutcome(n: Node, snap: seq<Entry>, k: nat, c: ChildRender)
    requires k < |snap|
    ensures var r := Step(n, snap[k], k, c);
      && r.node.rendering == n.rendering
      && (r.Abort? <==> EntryError(snap, k, c).Some?)
      && (r.Abort? ==> EntryError(snap, k, c) == Some(r.error))
      && r.node.log == n.log + (if c(snap[k].child, k).Rendered? then [Delivered(snap, k, c)] else [])
  {
  }

  /** A pass that finishes: no entry from k on raised anything, and the
      guard was left alone. */
  lemma {:induction false} RunFinished(n: Node, snap: seq<Entry>, k: nat, c: ChildRender)
    requires k <= |snap|
    requires Run(n, snap, k, c).Finished?
    ensures forall j | k <= j < |snap| :: EntryError(snap, j, c).None?
    ensures Run(n, snap, k, c).node.rendering == n.rendering
    decreases |snap| - k
  {
    if k < |snap| {
      StepOutcome(n, snap, k, c);
      RunFinished(Step(n, snap[k], k, c).node, snap, k + 1, c);
    }
  }

  /** A pass that finishes has invoked each callback from entry k on once,
      in queue order, with its own child's output. */
  lemma {:induction false} RunFinishedLog(n: Node, snap: seq<Entry>, k: nat, c: ChildRender)
    requires k <= |snap|
    requires Run(n, snap, k, c).Finished?
    ensures Run(n, snap, k, c).node.log == n.log + Deliveries(snap, k, |snap|, c)
    decreases |snap| - k
  {
    if k < |snap| {
      StepOutcome(n, snap, k, c);
      var e := Step(n, snap[k], k, c);
      RunFinishedLog(e.node, snap, k + 1, c);
      var d := Delivered(snap, k, c);
      assert e.node.log == n.log + [d];
      assert Deliveries(snap, k, |snap|, c) == [d] + Deliveries(snap, k + 1, |snap|, c);
      calc {
        Run(n, snap, k, c).node.log;
        e.node.log + Deliveries(snap, k + 1, |snap|, c);
        n.log + ([d] + Deliveries(snap, k + 1, |snap|, c));
      }
    }
  }

  /** The invocation entry k makes when its child renders, and none when
      the child throws. */
  function Attempt(q: seq<Entry>, k: nat, c: ChildRender): (r: seq<Delivery>)
    requires k < |q|
  {
    if c(q[k].child, k).Rendered? then [Delivered(q, k, c)] else []
  }

  /** A pass that stops at entry i: the entries before i raised nothing,
      entry i raised exactly the exception the pass carries, and the guard
      was left alone. */
  lemma {:induction false} RunStopped(n: Node, snap: seq<Entry>, k: nat, c: ChildRender)
    requires k <= |snap|
    requires Run(n, snap, k, c).Stopped?
    ensures var p := Run(n, snap, k, c);
      && k <= p.at < |snap|
      && (forall j | k <= j < p.at :: EntryError(snap, j, c).None?)
      && EntryError(snap, p.at, c) == Some(p.error)
      && p.node.rendering == n.rendering
    decreases |snap| - k
  {
    StepOutcome(n, snap, k, c);
    var e := Step(n, snap[k], k, c);
    if e.Continue? {
      RunStopped(e.node, snap, k + 1, c);
    }
  }

  /** A pass that stops at entry i has invoked, in queue order, the
      callbacks of the entries before i, each with its own child's output,
      then that of entry i if its child rendered, and no other. */
  lemma {:induction false} RunStoppedLog(n: Node, snap: seq<Entry>, k: nat, c: ChildRender)
    requires k <= |snap|
    requires Run(n, snap, k, c).Stopped?
    ensures var p := Run(n, snap, k, c);
      && k <= p.at < |snap|
      && p.node.log == n.log + Deliveries(snap, k, p.at, c) + Attempt(snap, p.at, c)
    decreases |snap| - k
  {
    StepOutcome(n, snap, k, c);
    var e := Step(n, snap[k], k, c);
    if e.Continue? {
      RunStoppedLog(e.node, snap, k + 1, c);
      var p := Run(e.node, snap, k + 1, c);
      var d := Delivered(snap, k, c);
      assert e.node.log == n.log + [d];
      assert Deliveries(snap, k, p.at, c) == [d] + Deliveries(snap, k + 1, p.at, c);
      calc {
        p.node.log;
        e.node.log + Deliveries(snap, k + 1, p.at, c) + Attempt(snap, p.at, c);
        n.log + ([d] + Deliveries(snap, k + 1, p.at, c)) + Attempt(snap, p.at, c);
      }
    }
  }

  /** Unfolds BoundDuring at its lower end. */
  lemma BoundDuringStep(q: seq<Entry>, lo: nat, hi: nat, c: ChildRender)
    requires lo < hi <= |q|
    ensures BoundDuring(q, lo, hi, c) == EntryBinds(q, lo, c) + BoundDuring(q, lo + 1, hi, c)
    ensures lo + 1 == hi ==> BoundDuring(q, lo, hi, c) == EntryBinds(q, lo, c)
  {
  }

  /** Regroups concatenations of queues. */
  lemma Regroup(a: seq<Entry>, t: seq<Entry>, b: seq<Entry>, rest: seq<Entry>)
    ensures a + t + b == a + (t + b)
    ensures a + (t + b) + rest == a + t + (b + rest)
  {
  }

  /** What is left behind entry i when entry k's bindings are counted
      with those of the entries after it. */
  lemma QueueAfterStep(snap: seq<Entry>, k: nat, i: nat, t: seq<Entry>, q: seq<Entry>, c: ChildRender)
    requires k < i < |snap|
    requires q == snap[i + 1..] + (t + EntryBinds(snap, k, c)) + BoundDuring(snap, k + 1, i + 1, c)
    ensures q == snap[i + 1..] + t + BoundDuring(snap, k, i + 1, c)
  {
    BoundDuringStep(snap, k, i + 1, c);
    Regroup(snap[i + 1..], t, EntryBinds(snap, k, c), BoundDuring(snap, k + 1, i + 1, c));
  }

  /** A pass that stops at entry i leaves entries k..i out of the live
      queue for good: what is left is the entries after i, untouched and in
      order, then what was queued behind the snapshot, then what the
      callbacks of entries k..i bound, in the order they ran. */
  lemma {:induction false} RunStoppedQueue(n: Node, snap: seq<Entry>, k: nat, t: seq<Entry>, c: ChildRender)
    requires k <= |snap| && n.queue == snap[k..] + t
    requires Run(n, snap, k, c).Stopped?
    ensures var p := Run(n, snap, k, c);
      && k <= p.at < |snap|
      && p.node.queue == snap[p.at + 1..] + t + BoundDuring(snap, k, p.at + 1, c)
    decreases |snap| - k
  {
    var e := Step(n, snap[k], k, c);
    var b := EntryBinds(snap, k, c);
    assert e.node.queue == snap[k + 1..] + (t + b) by {
      StepQueue(n, snap, k, t, c);
      Regroup(snap[k + 1..], t, b, []);
    }
    if e.Continue? {
      assert Run(n, snap, k, c) == Run(e.node, snap, k + 1, c);
      RunStoppedQueue(e.node, snap, k + 1, t + b, c);
      var p := Run(e.node, snap, k + 1, c);
      QueueAfterStep(snap, k, p.at, t, p.node.queue, c);
    } else {
      assert Run(n, snap, k, c) == Stopped(e.node, e.error, k);
      BoundDuringStep(snap, k, k + 1, c);
      Regroup(snap[k + 1..], t, b, []);
    }
  }

  /** A render() that meets the guard returns '' and changes nothing. */
  lemma RenderWhileRendering(n: Node, c: ChildRender)
    requires n.rendering
    ensures Render(n, c) == (n, Rendered(""))
  {
  }

  /** render() succeeds exactly when no child and no callback throws; it then
      returns '', restores the queue it started with (dropping whatever the
      callbacks bound meanwhile), clears the guard, and has invoked every
      callback once, in queue order, with its own child's output. */
  lemma RenderSucceeds(n: Node, c: ChildRender)
    requires !n.rendering
    ensures Render(n, c).1.Rendered? <==> forall j | 0 <= j < |n.queue| :: EntryError(n.queue, j, c).None?
    ensures Render(n, c).1.Rendered? ==>
      && Render(n, c).1 == Rendered("")
      && Render(n, c).0.queue == n.queue
      && !Render(n, c).0.rendering
      && Render(n, c).0.log == n.log + Deliveries(n.queue, 0, |n.queue|, c)
  {
    var start := n.(rendering := true);
    if Run(start, n.queue, 0, c).Finished? {
      RunFinished(start, n.queue, 0, c);
      RunFinishedLog(start, n.queue, 0, c);
    } else {
      RunStopped(start, n.queue, 0, c);
    }
  }

  /** render() fails when entry i (the first to raise) throws: the same
      exception comes out, the guard is cleared, entries 0..i stay removed
      from the queue (the snapshot is not put back): it holds the entries
      after i, never processed, in order, then what the callbacks bound,
      in the order they ran; and only the callbacks of entries before i
      (and of i, if its child rendered) ran. */
  lemma RenderFails(n: Node, c: ChildRender)
    requires !n.rendering
    requires Render(n, c).1.Raised?
    ensures var i := Run(n.(rendering := true), n.queue, 0, c).at;
      var (n', out) := Render(n, c);
      && i < |n.queue|
      && (forall j | 0 <= j < i :: EntryError(n.queue, j, c).None?)
      && EntryError(n.queue, i, c) == Some(out.error)
      && !n'.rendering
      && n'.queue == n.queue[i + 1..] + BoundDuring(n.queue, 0, i + 1, c)
      && n'.log == n.log + Deliveries(n.queue, 0, i, c) + Attempt(n.queue, i, c)
  {
    var start := n.(rendering := true);
    assert start.queue == n.queue[0..] + [];
    RunStopped(start, n.queue, 0, c);
    RunStoppedLog(start, n.queue, 0, c);
    RunStoppedQueue(start, n.queue, 0, [], c);
  }

  /** When no callback binds, a failed render() leaves in the queue exactly
      the entries after the one that threw: everything up to it is lost. */
  lemma FailureDropsPrefix(n: Node, c: ChildRender)
    requires !n.rendering
    requires forall j | 0 <= j < |n.queue| :: BindsNothing(n.queue[j].closure.body)
    requires Render(n, c).1.Raised?
    ensures var i := Run(n.(rendering := true), n.queue, 0, c).at;
      i < |n.queue| && Render(n, c).0.queue == n.queue[i + 1..]
  {
    var start := n.(rendering := true);
    assert start.queue == n.queue[0..] + [];
    RunStoppedQueue(start, n.queue, 0, [], c);
    var i := Run(start, n.queue, 0, c).at;
    NothingBound(n.queue, 0, i + 1, c);
  }

  /** An entry bound with bind() is processed last in the next pass: when
      that pass succeeds, the last invocation is its callback, given its
      child's output, and the queue, new entry included, is kept. */
  lemma BindThenRender(n: Node, child: ViewId, closure: Closure, c: ChildRender)
    requires !n.rendering
    requires Render(Bind(n, child, closure), c).1.Rendered?
    ensures var (n', _) := Render(Bind(n, child, closure), c);
      && n'.queue == n.queue + [Entry(child, closure, BindPriority)]
      && |n'.log| == |n.log| + |n.queue| + 1
      && c(child, |n.queue|).Rendered?
      && n'.log[|n'.log| - 1] == Delivery(closure.tag, c(child, |n.queue|).text)
  {
    var m := Bind(n, child, closure);
    RenderSucceeds(m, c);
    var q := m.queue;
    assert EntryError(q, |q| - 1, c).None?;
    var d := Deliveries(q, 0, |q|, c);
    assert d[|q| - 1] == Delivered(q, |q| - 1, c);
  }

  /** The node with its final flag forgotten. */
  function Unflagged(n: Node): (r: Node)
  {
    n.(isFinal := None)
  }

  /** An effect with the final flag of its node forgotten. */
  function UnflaggedEffect(e: Effect): (r: Effect)
  {
    match e
    case Continue(n) => Continue(Unflagged(n))
    case Abort(n, x) => Abort(Unflagged(n), x)
  }

  /** A pass with the final flag of its node forgotten. */
  function UnflaggedPass(p: Pass): (r: Pass)
  {
    match p
    case Finished(n) => Finished(Unflagged(n))
    case Stopped(n, x, i) => Stopped(Unflagged(n), x, i)
  }

  /** A callback does the same to two nodes that differ only in the flag. */
  lemma {:induction false} PerformIgnoresFlag(a: Node, b: Node, body: seq<Action>, arg: string)
    requires Unflagged(a) == Unflagged(b)
    ensures UnflaggedEffect(Perform(a, body, arg)) == UnflaggedEffect(Perform(b, body, arg))
    decreases |body|
  {
    if body != [] {
      match body[0]
      case Store => PerformIgnoresFlag(a.(content := arg), b.(content := arg), body[1..], arg);
      case BindChild(v, cl) => PerformIgnoresFlag(Bind(a, v, cl), Bind(b, v, cl), body[1..], arg);
      case MarkFinal(f) => assert SetFinal(a, f) == SetFinal(b, f);
      case RenderSelf => PerformIgnoresFlag(a.(content := ""), b.(content := ""), body[1..], arg);
      case Throw(x) =>
    }
  }

  /** A pass does the same to two nodes that differ only in the flag. */
  lemma {:induction false} RunIgnoresFlag(a: Node, b: Node, snap: seq<Entry>, k: nat, c: ChildRender)
    requires Unflagged(a) == Unflagged(b)
    ensures UnflaggedPass(Run(a, snap, k, c)) == UnflaggedPass(Run(b, snap, k, c))
    decreases |snap| - k
  {
    if k < |snap| {
      var e := snap[k];
      var la := a.(queue := RemoveFirst(a.queue, e));
      var lb := b.(queue := RemoveFirst(b.queue, e));
      assert Unflagged(la) == Unflagged(lb);
      match c(e.child, k)
      case Raised(x) =>
      case Rendered(t) =>
        var d := Delivery(e.closure.tag, t);
        PerformIgnoresFlag(la.(log := la.log + [d]), lb.(log := lb.log + [d]), e.closure.body, t);
        var sa, sb := Step(a, e, k, c), Step(b, e, k, c);
        if sa.Continue? {
          RunIgnoresFlag(sa.node, sb.node, snap, k + 1, c);
        }
    }
  }

  /** The final flag is advisory: setting it changes neither what render()
      returns nor what it does to the queue, the guard, the log or the
      stored content. */
  lemma FinalFlagIsAdvisory(n: Node, flag: bool, c: ChildRender)
    ensures Render(SetFinal(n, flag), c).1 == Render(n, c).1
    ensures Unflagged(Render(SetFinal(n, flag), c).0) == Unflagged(Render(n, c).0)
  {
    var m := SetFinal(n, flag);
    assert Unflagged(m.(rendering := true)) == Unflagged(n.(rendering := true));
    RunIgnoresFlag(m.(rendering := true), n.(rendering := true), n.queue, 0, c);
  }
}
