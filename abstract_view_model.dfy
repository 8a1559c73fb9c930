/** The view model object itself: its fields change in place, and each of
    its methods is proved to do what the functions of RenderModel say. */
module AbstractViewModel {
  import opened ViewTypes
  import RenderModel

  class ViewModel {
    /** None until setFinal() is called (PHP's null). */
    var isFinal: Option<bool>
    /** The bound [child, closure] entries, in the order they are iterated. */
    var queue: seq<Entry>
    /** The render guard: true while a render pass is running. */
    var startRender: bool
    /** The field bound callbacks store their results into. */
    var content: string
    /** Every callback invocation so far, with the text it was given. */
    var log: seq<Delivery>

    /** The object's state as a value. */
    function State(): Node
      reads this
    {
      Node(queue, startRender, isFinal, content, log)
    }

    /** The options are handed to a setter helper that is not modelled;
        whatever they are, the queue starts empty and the guard clear. */
    constructor (options: map<string, string> := map[])
      ensures queue == [] && !startRender
      ensures isFinal == None && content == "" && log == []
    {
      isFinal := None;
      queue := [];
      startRender := false;
      content := "";
      log := [];
    }

    /** render(): renders every bound child, hands its output to its
        callback, then renders itself (nothing, at this level). */
    method Render(children: ChildRender) returns (r: Outcome)
      modifies this
      decreases if startRender then 0 else 1, 0
      ensures (State(), r) == RenderModel.Render(old(State()), children)
    {
      if startRender {
        return Rendered("");
      }
      startRender := true;
      var snapshot := queue;
      ghost var start := State();
      var i := 0;
      while i < |snapshot|
        invariant 0 <= i <= |snapshot|
        invariant startRender
        invariant RenderModel.Run(State(), snapshot, i, children) == RenderModel.Run(start, snapshot, 0, children)
      {
        var vc := snapshot[i];
        queue := RemoveFirst(queue, vc);
        var vResult := children(vc.child, i);
        if vResult.Raised? {
          startRender := false;
          return vResult;
        }
        var thrown := Invoke(vc.closure, vResult.text, children);
        if thrown.Some? {
          startRender := false;
          return Raised(thrown.value);
        }
        i := i + 1;
      }
      queue := snapshot;
      startRender := false;
      r := Rendered("");
    }

    /** Calls a bound callback, bound to this object, with a child's output;
        returns the exception it throws, if any. */
    method Invoke(closure: Closure, arg: string, children: ChildRender) returns (thrown: Option<Exn>)
      requires startRender
      modifies this
      decreases 0, 1
      ensures RenderModel.Call(old(State()), closure, arg)
           == if thrown.None? then RenderModel.Continue(State()) else RenderModel.Abort(State(), thrown.value)
    {
      log := log + [Delivery(closure.tag, arg)];
      ghost var start := State();
      var body := closure.body;
      var j := 0;
      while j < |body|
        invariant 0 <= j <= |body|
        invariant startRender
        decreases |body| - j
        invariant RenderModel.Perform(State(), body[j..], arg) == RenderModel.Perform(start, body, arg)
      {
        assert body[j..][1..] == body[j + 1..];
        match body[j] {
          case Store =>
            content := arg;
          case BindChild(v, cl) =>
            var self := Bind(v, cl);
          case MarkFinal(f) =>
            var self := SetFinal(f);
          case RenderSelf =>
            var nested := Render(children);
            content := nested.text;
          case Throw(x) =>
            return Some(x);
        }
        j := j + 1;
      }
      return None;
    }

    /** setFinal(): records the flag; it restricts nothing here. */
    method SetFinal(flag: bool := true) returns (self: ViewModel)
      modifies this
      ensures self == this
      ensures State() == RenderModel.SetFinal(old(State()), flag)
      ensures IsFinal() == Some(flag)
    {
      isFinal := Some(flag);
      return this;
    }

    /** isFinal(): the flag last given to setFinal(), None before that. */
    function IsFinal(): (r: Option<bool>)
      reads this
      ensures r == State().isFinal
    {
      isFinal
    }

    /** bind(): queues [child, closure] at priority 0. It does not look at
        the final flag. */
    method Bind(child: ViewId, closure: Closure) returns (self: ViewModel)
      modifies this
      ensures self == this
      ensures State() == RenderModel.Bind(old(State()), child, closure)
    {
      queue := queue + [Entry(child, closure, BindPriority)];
      return this;
    }
  }

  /** A child that renders "hello", bound with a callback that stores its
      argument: the parent ends up holding "hello" and renders ''. */
  method HelloScenario() returns (content: string, out: Outcome)
    ensures content == "hello" && out == Rendered("")
  {
    var a := new ViewModel();
    var cl := Closure(7, [Store]);
    var self := a.Bind(1, cl);
    var children := (v: ViewId, k: nat) => Rendered("hello");
    ghost var s := a.State();
    ghost var e := Entry(1, cl, 0);
    ghost var called := s.(rendering := true, queue := [], log := [Delivery(7, "hello")]);
    assert s.queue == [e];
    assert RemoveFirst([e], e) == [];
    assert cl.body[1..] == [];
    assert RenderModel.Step(s.(rendering := true), e, 0, children)
        == RenderModel.Continue(called.(content := "hello"));
    assert RenderModel.Run(s.(rendering := true), [e], 0, children)
        == RenderModel.Finished(called.(content := "hello"));
    out := a.Render(children);
    content := a.content;
  }

  /** setFinal() with its default, then isFinal(): the flag reads true; a
      final model still accepts bind(). */
  method FinalScenario() returns (before: Option<bool>, after: Option<bool>, bound: nat)
    ensures before == None && after == Some(true) && bound == 1
  {
    var a := new ViewModel();
    before := a.IsFinal();
    var self := a.SetFinal();
    after := a.IsFinal();
    self := a.Bind(1, Closure(0, []));
    bound := |a.queue|;
  }

  /** A callback that binds another child and calls render() on its own
      parent: the nested call returns '', the entry is processed once, and
      the new binding is gone after the pass. */
  method ReentrantScenario() returns (out: Outcome, content: string, calls: seq<Delivery>, queued: seq<Entry>)
    ensures out == Rendered("") && content == ""
    ensures calls == [Delivery(7, "hi")]
    ensures queued == [Entry(1, Closure(7, [Store, BindChild(2, Closure(8, [])), RenderSelf]), 0)]
  {
    var a := new ViewModel();
    var cl := Closure(7, [Store, BindChild(2, Closure(8, [])), RenderSelf]);
    var self := a.Bind(1, cl);
    var children := (v: ViewId, k: nat) => Rendered("hi");
    ghost var s := a.State();
    ghost var e := Entry(1, cl, 0);
    ghost var called := s.(rendering := true, queue := [], log := [Delivery(7, "hi")]);
    ghost var extra := Entry(2, Closure(8, []), 0);
    assert s.queue == [e];
    assert RemoveFirst([e], e) == [];
    assert cl.body[1..][1..][1..] == [];
    assert RenderModel.Perform(called.(content := "hi", queue := [extra]), cl.body[1..][1..], "hi")
        == RenderModel.Continue(called.(content := "", queue := [extra]));
    assert RenderModel.Step(s.(rendering := true), e, 0, children)
        == RenderModel.Continue(called.(content := "", queue := [extra]));
    assert RenderModel.Run(s.(rendering := true), [e], 0, children)
        == RenderModel.Finished(called.(content := "", queue := [extra]));
    out := a.Render(children);
    content := a.content;
    calls := a.log;
    queued := a.queue;
  }

  /** Two children, the first callback throws: the exception comes out, the
      guard is clear, the first entry is lost, and a second render() only
      sees the second entry. */
  method FailureScenario() returns (out: Outcome, guard: bool, left: seq<Entry>, again: Outcome, calls: seq<Delivery>)
    ensures out == Raised(Exn(3)) && !guard
    ensures left == [Entry(2, Closure(9, [Store]), 0)]
    ensures again == Rendered("")
    ensures calls == [Delivery(8, "x"), Delivery(9, "x")]
  {
    var a := new ViewModel();
    var cl1 := Closure(8, [Throw(Exn(3))]);
    var cl2 := Closure(9, [Store]);
    var self := a.Bind(1, cl1);
    self := a.Bind(2, cl2);
    var children := (v: ViewId, k: nat) => Rendered("x");
    ghost var s := a.State();
    ghost var e1, e2 := Entry(1, cl1, 0), Entry(2, cl2, 0);
    assert s.queue == [e1, e2];
    assert RemoveFirst([e1, e2], e1) == [e2];
    ghost var failed := s.(rendering := true, queue := [e2], log := [Delivery(8, "x")]);
    assert RenderModel.Step(s.(rendering := true), e1, 0, children) == RenderModel.Abort(failed, Exn(3));
    assert RenderModel.Run(s.(rendering := true), [e1, e2], 0, children) == RenderModel.Stopped(failed, Exn(3), 0);
    out := a.Render(children);
    guard := a.startRender;
    left := a.queue;
    ghost var s' := a.State();
    assert RemoveFirst([e2], e2) == [];
    assert cl2.body[1..] == [];
    ghost var called := s'.(rendering := true, queue := [], log := [Delivery(8, "x"), Delivery(9, "x")]);
    assert RenderModel.Step(s'.(rendering := true), e2, 0, children)
        == RenderModel.Continue(called.(content := "x"));
    assert RenderModel.Run(s'.(rendering := true), [e2], 0, children)
        == RenderModel.Finished(called.(content := "x"));
    again := a.Render(children);
    calls := a.log;
  }
}
