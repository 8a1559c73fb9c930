# AbstractViewModel: nested view models with a guarded render pass

A view model in phPoirot/View can hold child view models. `bind()` queues a
child together with a closure. `render()` renders each queued child and hands
its output to that child's closure. The closure runs bound to the parent, so
it can store the output in the parent's fields. Then the parent renders
itself; the base class renders nothing.

A render pass works as follows:

- A guard (`$__startRender`) stops a render that re-enters the same object.
  The re-entrant call returns `''` at once.
- The pass clones the queue before it starts.
- It removes each entry from the live queue before processing it.
- On success it puts the clone back. On an exception it clears the guard and
  rethrows, leaving the queue partly drained.

`setFinal()` and `isFinal()` store and read an advisory flag. Nothing in the
class enforces it.

The model has three modules:

- `ViewTypes` (view_types.dfy): the values. A child is an identity
  (`ViewId`). A closure is a tagged list of the statements it may execute
  against its parent: store its argument, call `bind()`, call `setFinal()`,
  call `render()` on the parent, or throw. A queue entry is
  `[child, closure]` with its priority. `Node` is the whole state of a view
  model as one value. `RemoveFirst` is the queue's `remove()`.
- `RenderModel` (render_model.dfy): one render pass as functions of a
  `Node`. `Step` handles one entry. `Run` walks the snapshot. `Render` is
  the whole call. This module also holds the lemmas that state what a pass
  does.
- `AbstractViewModel` (abstract_view_model.dfy): class `ViewModel`, whose
  fields are updated in place. `Render` is a loop over the snapshot.
  `Invoke` calls a closure: it loops over the closure's statements and calls
  back into `Bind`, `SetFinal` and `Render`. Both are proved to follow the
  `RenderModel` functions step by step. Four client methods at the end
  replay concrete uses of the class.

What a child's `render()` returns is an input: a function `ChildRender`
from the child's identity and its position in the pass to either text or an
exception. Each closure invocation is recorded in a `log` field with the text
it received. That is how the model states which callbacks ran, in what order
and with what argument. The `content` field is where the closures store
results.

The clone of the queue is put back only after a pass that completes
(AbstractViewModel.php:65-71); a pass that throws leaves the queue as the
pass left it. The doc comment on `bind()` says final view models cannot
bind. The code does not check the flag (AbstractViewModel.php:111,
125-130), and neither does the model.

## Model

| member | source | states |
|---|---|---|
| AbstractViewModel.ViewModel.constructor | AbstractViewModel.php:18-31 | whatever options are passed, the new view model has an empty queue and the guard clear; the final flag is unset (null) because the options are not modelled (see "Left out") |
| AbstractViewModel.ViewModel.Render | AbstractViewModel.php:41-79 | the new state of the object and the result are exactly what `RenderModel.Render` gives for the old state: the loop removes each snapshot entry, renders its child, calls its closure, stops at the first exception with the guard cleared, and otherwise puts the snapshot back and clears the guard |
| AbstractViewModel.ViewModel.Invoke | AbstractViewModel.php:57-64 | calling a bound closure records the invocation with the child's output, then has exactly the effect `RenderModel.Call` gives; a `render()` from inside the closure meets the guard and yields '' |
| AbstractViewModel.ViewModel.SetFinal | AbstractViewModel.php:91-96 | stores the flag (true by default), changes nothing else, returns the object itself; isFinal() then reads back that flag |
| AbstractViewModel.ViewModel.IsFinal | AbstractViewModel.php:103-106 | returns the final flag of the view model's state: the flag last stored by setFinal() (whose contract gives `IsFinal() == Some(flag)` afterwards), None (PHP null) before any call |
| AbstractViewModel.ViewModel.Bind | AbstractViewModel.php:125-130 | appends exactly one entry [child, closure] at priority 0, changes nothing else (the final flag is not consulted), returns the object itself |
| ViewTypes.RemoveFirst | AbstractViewModel.php:55 | removing the entry at the head of the queue drops just the head |
| ViewTypes.RemoveFirstRemovesOne | AbstractViewModel.php:55 | removing an entry that is not queued leaves the queue as it is; removing a queued entry takes out exactly one copy of it (length one less, multiset minus that entry) |
| ViewTypes.RemoveFirstKeepsOrder | AbstractViewModel.php:55 | the copy removed is the first occurrence of the entry, and the entries before and after it keep their order |
| RenderModel.Perform | AbstractViewModel.php:57-64 | a closure running against the parent never touches the invocation log or the guard, and it throws exactly when one of its statements throws, with the first such exception |
| RenderModel.BoundEntries | AbstractViewModel.php:125-130 | every entry a closure binds is queued at priority 0, and a closure that never calls bind() binds nothing |
| RenderModel.PerformQueue | AbstractViewModel.php:57-64 | a closure changes the live queue only by appending, in order, exactly the entries it binds before it throws |
| RenderModel.StepQueue | AbstractViewModel.php:52-64 | processing entry k, at the head of the live queue, removes it and appends what its closure binds (nothing if its child threw); the unvisited entries and those bound earlier keep their order |
| RenderModel.StepOutcome | AbstractViewModel.php:55-69 | processing entry k aborts exactly when its child or its closure throws, with that exception; its closure is invoked once, with its own child's output, whenever the child rendered; the guard is untouched |
| RenderModel.RunFinished | AbstractViewModel.php:52-70 | a pass that completes met no exception in any entry and left the guard as it was |
| RenderModel.RunFinishedLog | AbstractViewModel.php:52-64 | a pass that completes invoked every closure exactly once, in queue order, each with its own child's output |
| RenderModel.RunStopped | AbstractViewModel.php:62-69 | a pass that stops does so at the first entry that throws, and carries that entry's exception unchanged |
| RenderModel.RunStoppedLog | AbstractViewModel.php:52-69 | a pass that stops at entry i invoked the closures of entries before i, in order, with their children's outputs, then that of entry i only if its child rendered, and no later one |
| RenderModel.RunStoppedQueue | AbstractViewModel.php:52-68 | a pass that stops at entry i has removed entries up to i from the live queue for good: what is left is the later entries, untouched and in order, then what was queued behind them, then exactly the entries the closures up to i bound, in the order they ran |
| RenderModel.RenderWhileRendering | AbstractViewModel.php:43-44 | render() while the guard is set returns '' and changes neither the queue nor the guard nor anything else |
| RenderModel.RenderSucceeds | AbstractViewModel.php:46-78 | render() succeeds if and only if no child and no closure throws; it then returns '', leaves the queue equal to its value on entry (discarding whatever closures bound meanwhile), clears the guard, and has invoked every closure once, in queue order, with its own child's output |
| RenderModel.RenderFails | AbstractViewModel.php:62-69 | when render() throws, it throws the exception of the first failing entry i, clears the guard, and leaves the queue equal to the later entries, unprocessed and in order, followed by exactly the entries the closures of entries 0..i bound, in the order they ran: entries 0..i are not put back; only the closures before i (and that of i, if its child rendered) ran |
| RenderModel.FailureDropsPrefix | AbstractViewModel.php:51-71 | if no closure binds, a failed render() leaves exactly the entries after the failing one in the queue |
| RenderModel.BindThenRender | AbstractViewModel.php:125-130 | an entry bound with bind() is processed last in the next pass; when that pass succeeds the entry is still queued and the last invocation is its closure, given its child's output |
| RenderModel.PerformIgnoresFlag | AbstractViewModel.php:57-64 | a closure has the same effect, apart from the final flag, on two parents that differ only in that flag |
| RenderModel.RunIgnoresFlag | AbstractViewModel.php:52-70 | a pass has the same effect, apart from the final flag, on two view models that differ only in that flag |
| RenderModel.FinalFlagIsAdvisory | AbstractViewModel.php:91-96 | setting the final flag changes neither what render() returns nor what it does to the queue, the guard, the log or the stored content |
| AbstractViewModel.HelloScenario | AbstractViewModel.php:41-78 | a parent bound to a child rendering "hello" with a storing closure ends up holding "hello" and renders '' |
| AbstractViewModel.FinalScenario | AbstractViewModel.php:91-106 | isFinal() is null before setFinal(), true after setFinal() with its default argument, and a final view model still accepts bind() |
| AbstractViewModel.ReentrantScenario | AbstractViewModel.php:43-51 | a closure that binds another child and calls render() on its parent gets '' back; the entry is processed once, and the extra binding is gone after the pass |
| AbstractViewModel.FailureScenario | AbstractViewModel.php:62-71 | when the first of two closures throws, its exception comes out, the guard is clear, the first entry is lost, and a second render() processes only the second entry |

## Left out

- Construction from options (`setupFromArray`, AbstractViewModel.php:27-28) is not part of this model. The constructor takes the options and ignores them. Any field the options would set other than the queue is not modelled.
- AbstractViewModel.ViewModel.constructor: states the final flag null and the content empty only because the options are ignored; an option such as "final" could set the flag (or throw) in the real constructor. Only the empty queue and the clear guard hold whatever the options are.
- The priority queue class is not part of this model. The queue is a sequence in insertion order, which assumes the queue keeps insertion order among equal priorities; every entry has priority 0. `remove()` is modelled as removing the first equal entry.
- Iterating the queue is modelled as visiting the entries present when the pass starts, in order. Entries that closures bind during the pass are appended to the live queue and are not visited. How the queue class really iterates while it is being changed is not part of this model.
- `Closure::bindTo` and arbitrary closure code are not modelled. A closure is a list of five kinds of statements against its parent: store the argument, bind, setFinal, render the parent, throw. Closure code that does anything else (reads other fields, loops, calls other objects) is not captured.
- Children are not modelled as objects. Their render() results come from the `ChildRender` input. A child whose render() calls back into its parent is covered only through what it returns.
- Concrete subclasses and their own rendering are left out. The base class renders '' after the pass. Exception classes are reduced to a single `Exn` value. The catch at AbstractViewModel.php:65 only catches `\Exception`: a PHP `\Error` thrown by a child or a closure escapes without clearing the guard, so every later render() returns '' at once. The model does not capture that, since every throw is an `Exn` that is caught.
- The flag passed to setFinal() can be any PHP value; the model takes a boolean. The `iViewModel` type check on bind()'s argument is not modelled.
- RenderModel.Perform: the effect of a closure's own `render()` call is stated as storing '' unconditionally; the specification function never reads the guard. That is right only because `Perform` runs inside a pass, after `RenderModel.Render` has set the guard. `AbstractViewModel.ViewModel.Invoke` does make the real recursive call and proves that it returns ''.
