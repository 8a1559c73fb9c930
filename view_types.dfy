/** Values shared by the model of a view model: children, callbacks, queue
    entries, render outcomes, and the whole state of a node as one value. */
module ViewTypes {

  datatype Option<+T> = None | Some(value: T)

  /** Identity of a child view model; what its render() returns is supplied
      by a ChildRender oracle, since the child's own code is not modelled. */
  type ViewId = nat

  /** An exception object, thrown by a child's render() or by a callback. */
  datatype Exn = Exn(id: nat)

  /** What a call to render() produces: text, or a thrown exception. */
  datatype Outcome = Rendered(text: string) | Raised(error: Exn)
  {
    /** The rendered text; an exception carries none. */
    function Text(): string {
      if Rendered? then text else ""
    }
  }

  /** One statement of a bound callback. The callback runs bound to the
      parent view model, so it may change the parent's fields. */
  datatype Action =
    | Store                                       // $this->content = $result
    | BindChild(child: ViewId, closure: Closure)  // $this->bind($child, $closure)
    | MarkFinal(flag: bool)                       // $this->setFinal($flag)
    | RenderSelf                                  // $this->content = $this->render()
    | Throw(error: Exn)                           // throw $error

  /** A callback: an identity (to tell invocations apart) and its statements. */
  datatype Closure = Closure(tag: nat, body: seq<Action>)

  /** The priority with which bind() inserts every entry. */
  const BindPriority: int := 0

  /** One element of the queue: the pair [child, closure] and its priority. */
  datatype Entry = Entry(child: ViewId, closure: Closure, priority: int)

  /** The record of one callback invocation: which callback, with what text. */
  datatype Delivery = Delivery(closure: nat, output: string)

  /** The whole state of a view model as a value: the queue, the render
      guard, the final flag (None is PHP's null, the value before any
      setFinal), the field callbacks store into, and the invocation log. */
  datatype Node = Node(
    queue: seq<Entry>,
    rendering: bool,
    isFinal: Option<bool>,
    content: string,
    log: seq<Delivery>)

  /** What child `v` renders when it is the k-th entry of a render pass. */
  type ChildRender = (ViewId, nat) -> Outcome

  /** The queue's remove(): takes out the first entry equal to `e`. */
  function RemoveFirst(s: seq<Entry>, e: Entry): (r: seq<Entry>)
    ensures |s| > 0 && s[0] == e ==> r == s[1..]
  {
    if s == [] then []
    else
      assert s == [s[0]] + s[1..];
      if s[0] == e then s[1..] else [s[0]] + RemoveFirst(s[1..], e)
  }

  /** remove() takes out exactly one copy of an entry that is queued, and
      leaves a queue without it as it is. */
  lemma {:induction false} RemoveFirstRemovesOne(s: seq<Entry>, e: Entry)
    ensures e !in s ==> RemoveFirst(s, e) == s
    ensures e in s ==> |RemoveFirst(s, e)| == |s| - 1
    ensures e in s ==> multiset(RemoveFirst(s, e)) == multiset(s) - multiset{e}
  {
    if s != [] {
      assert s == [s[0]] + s[1..];
      if s[0] != e {
        RemoveFirstRemovesOne(s[1..], e);
      }
    }
  }

  /** The copy remove() takes out is the first one, and the other entries
      keep their order. */
  lemma {:induction false} RemoveFirstKeepsOrder(s: seq<Entry>, e: Entry)
    ensures e in s ==> exists i | 0 <= i < |s| ::
      s[i] == e && e !in s[..i] && RemoveFirst(s, e) == s[..i] + s[i + 1..]
  {
    if s != [] && e in s {
      if s[0] == e {
        assert s[..0] == [];
        assert RemoveFirst(s, e) == s[..0] + s[1..];
      } else {
        var t := s[1..];
        assert e in t by { assert s == [s[0]] + t; }
        RemoveFirstKeepsOrder(t, e);
        var i :| 0 <= i < |t| && t[i] == e && e !in t[..i] && RemoveFirst(t, e) == t[..i] + t[i + 1..];
        SplitBehindHead(s, i);
        assert s[i + 1] == e;
      }
    }
  }

  /** Cutting out entry i + 1 of s is cutting out entry i of its tail,
      behind the head. */
  lemma SplitBehindHead(s: seq<Entry>, i: nat)
    requires i + 1 < |s|
    ensures s[..i + 1] == [s[0]] + s[1..][..i]
    ensures s[..i + 1] + s[i + 2..] == [s[0]] + (s[1..][..i] + s[1..][i + 1..])
  {
    assert s[i + 2..] == s[1..][i + 1..];
  }
}
