# GReact reconciler and signals, modelled in Dafny

GReact is a small React-style UI layer over the Godot engine. Each frame, the
application builds an immutable tree of keyed elements. `Renderer.Render`
reconciles that tree with the populated tree of the previous frame, which
binds each element to the Godot node it produced. It then issues the host
calls that make Godot's scene graph follow the new tree. Keys are global:
they are unique across the whole tree, not per parent.

- The first render builds every node directly.
- A later render flattens both trees into insertion-ordered dictionaries.
  It fails on a repeated key before touching the host.
- It then derives four queues: update, creation, move and destruction.
- It runs them in that order.
- Finally it rebuilds the populated tree.

Signals are event handlers described as values: a props type, a props value
and a callback. `Connect` rebinds a node's event only when the new frame's
signal differs from the previous frame's.

The model has these parts:

- `wrappers.dfy`: `Option`, `Result` and `Outcome`. These stand for C# null
  references and exceptions.
- `host_graph.dfy`: the Godot scene graph as a class `Host`. It holds the
  next fresh node handle and the log of every host call. The parent map, the
  freed nodes and the signal connections are kept equal to folds over that
  log.
- `elements.dfy`: `Element<PropT>` and `PopulatedElement` as datatypes, with
  `Element.Render` as a method against the host. It also holds the pre-order
  flattening that the dictionaries are filled in.
- `ordered_dict.dfy`: the .NET `Dictionary` as an insertion-ordered class.
  Its contents are given by pure functions.
- `diff.dfy`: the four queues as functions of the new pre-order and the old
  dictionary, and what each holds exactly.
- `first_render.dfy`: the populated tree and the host calls of the first
  render, as functions.
- `reconciler.dfy`: `Renderer` with its field `oldGraph`. `Render` is split
  into one method per phase. Each method is proved against the functions
  above, and lemmas compose the phases.
- `signals.dfy`: `Signal` / `Signal<Arg1T>` as one class, with a `kind` field
  telling the two apart. It covers equality, `Call`, both `New`s and
  `Connect`, plus a corrected `ConnectFixed`.

Godot itself is not modelled. Each call the core makes into it that changes
the scene graph (`createNode`, `modifyNode`, `AddChild`, `Free`, `Connect`,
`Disconnect`) becomes a `Host` method that appends to the log. `GetParent` is
a read-only query, answered from the log: the parent given by the node's last
attachment, unless the node was freed since. The host applies one
re-parenting rule of its own: `AddChild` sets the child's parent even when it
already has one, and `Free` detaches only the freed node. A delegate is an
opaque identity, and a created node is the next fresh handle.

Notes on the code's behaviour:

- keys are global strings, unique across the whole tree;
- a key repeated anywhere in the tree is rejected, and only on renders after
  the first;
- siblings are never reordered: a kept node is re-attached only when its
  recorded parent key differs from its new one. Because an updated element
  records no parent key (see Findings), an unchanged tree re-attaches every
  non-root kept node every other render;
- `Connect` compares with the previous frame's signal object, and no record
  of the callback a node is bound to is kept; that is where the second
  finding comes from;
- `Render` keeps the code's behaviour for updated elements, whose parent key
  is reset (see Findings).

## Model

| member | source | states |
|---|---|---|
| HostGraph.Host.CreateNode | GReact/GReact.cs:162 | calling `createNode` yields a fresh node and logs its creation with the delegate and props |
| HostGraph.Host.ModifyNode | GReact/GReact.cs:165 | calling `modifyNode` logs the node, the delegate, the old and the new props; no node is created |
| HostGraph.Host.AddChild | GReact/GReact.cs:121 | `AddChild` logs the attachment and sets the child's parent |
| HostGraph.Host.Free | GReact/GReact.cs:88 | `Free` logs the node, marks it freed and detaches it |
| HostGraph.Host.GetParent | GReact/GReact.cs:170 | `GetParent` is the parent given by the node's last attachment in the log when no later call attached or freed it, and null otherwise |
| HostGraph.ParentAfterLastAttached | GReact/GReact.cs:170-172 | a node has a parent after a log iff some attachment of it is followed by no later attachment or free of it, and that attachment names the parent |
| HostGraph.Host.Connect | GReact/Signal.cs:98 | `node.Connect` logs and adds the (node, signal name, target) connection |
| HostGraph.Host.Disconnect | GReact/Signal.cs:96 | `node.Disconnect` logs and removes that connection; a missing one is left alone |
| Elements.Element.New | GReact/GReact.cs:145-153 | a new element has the given key, props type, props and both delegates, no children, and flattens to itself alone |
| Elements.Element.Child | GReact/GReact.cs:155-158 | `Child` appends exactly the child and keeps everything else |
| Elements.ChildAppendsSubtree | GReact/GReact.cs:155-158 | appending a child appends its whole subtree, keyed under the parent, to the parent's pre-order |
| Elements.ChildAppendsKeys | GReact/GReact.cs:155-158 | appending a child appends its subtree's keys to the tree's keys |
| Elements.Element.Render | GReact/GReact.cs:160-199 | three cases: none → create; same props type → keep the node and `modifyNode(old.props, props)`; other type → create, attach under the old node's parent if any, free the old node. The result comes from the `PopulatedElement` constructor (lines 194-199), so it never has children or a parent key |
| Elements.FlattenParentsBefore | GReact/GReact.cs:109-117 | the new dictionary's pre-order lists every parent before its children, and the root's parent is null |
| OrderedDicts.OrderedDict.Set | GReact/GReact.cs:113 | `dict[k] = v` appends a new key, or overwrites in place keeping the key's position |
| OrderedDicts.PutAllWellFormed | GReact/GReact.cs:102-107 | filling a dictionary keeps its keys distinct and holds exactly the old and inserted keys |
| OrderedDicts.PutAllFresh | GReact/GReact.cs:109-117 | inserting distinct fresh keys appends them in insertion order |
| OrderedDicts.PutAllConcat | GReact/GReact.cs:104-106 | filling from a subtree after a prefix is filling from their concatenation |
| Diff.UpdateCreationPartition | GReact/GReact.cs:24-35 | a new element is updated iff its key was old, created iff not; the two queues together cover all new elements |
| Diff.UpdateQueueExact | GReact/GReact.cs:31 | the update queue holds exactly the new keys that are old keys |
| Diff.MoveQueueExact | GReact/GReact.cs:25-30 | the move queue holds exactly the kept keys whose recorded parent key differs, each with its new parent key; every moved key is also updated |
| Diff.MoveTargetsUnique | GReact/GReact.cs:29 | with distinct keys, each move of a key targets that key's new parent |
| Diff.DestructionQueueExact | GReact/GReact.cs:39-44 | the destruction queue holds, in old order, exactly the nodes of the old keys the new tree lacks |
| Diff.QueuesNoDup | GReact/GReact.cs:24-35 | distinct new keys give repeat-free update and creation queues |
| Diff.CreationParentsReady | GReact/GReact.cs:59-70 | each created element's parent key is null, an updated key, or the key of an earlier creation |
| Diff.ParentKeysPresent | GReact/GReact.cs:72-80 | every parent key in the pre-order is a key of the new tree, so every move target exists |
| Diff.StaleParentKeyScenario | GReact/GReact.cs:194-199 | as written: after x[y] is rendered twice, y records no parent; then y alone is not moved out of the freed x, and x[y] again moves y under the x it is already under |
| Diff.FixedScenario | GReact/GReact.cs:194-199 | with the corrected recording, the same frames move y to the root when x goes, and move nothing when x[y] comes again |
| Diff.FixedRecordingNoSpuriousMoves | GReact/GReact.cs:25-30 | with the corrected recording, re-rendering an unchanged tree moves nothing |
| Diff.FixedRecordingMovesReparented | GReact/GReact.cs:25-30 | with the corrected recording, a key moves iff its parent key changed between frames |
| FirstRender.FirstGraphShape | GReact/GReact.cs:119-125 | the first render's populated tree mirrors the element tree, records every parent key, and binds the elements in pre-order to consecutive fresh nodes |
| FirstRender.FirstRenderOpsBindTree | GReact/GReact.cs:119-125 | the first render creates each element's node once and attaches the root under `parent` and every other node under its parent element's node |
| Reconciler.FirstRepeatSpec | GReact/GReact.cs:110-111 | the duplicate check fails iff the keys are not distinct, naming a key that occurs twice |
| Reconciler.OldElems | GReact/GReact.cs:102-107 | the old element dictionary is well formed |
| Reconciler.ElemsMatchFromFlatten | GReact/GReact.cs:46-50 | a dictionary holding every new pre-order entry holds every element of the new tree |
| Reconciler.UpdateStep | GReact/GReact.cs:57 | the host calls of one `Render(old)` form that update's chunk of the log: one `modifyNode` on the old node for the same props type, otherwise a fresh node attached under the old node's parent (if any) and the old node freed; its result has no parent key |
| Reconciler.ApplyMovesClosedForm | GReact/GReact.cs:74-83 | the moves set each moved key's parent key to its last move target and change no node, element or other key |
| Reconciler.CreationOpsSameNodes | GReact/GReact.cs:72-83 | the creations' host calls read the same nodes before and after the moves |
| Reconciler.PhasesReady | GReact/GReact.cs:46-83 | the queues meet each phase's needs: updated keys are old; created keys are new with parents ready in time; updated plus created keys are exactly the new keys; every move's element and target exist |
| Reconciler.FinalPopulated | GReact/GReact.cs:51-83 | after updates, creations and moves, every new key holds its element, no children, and the parent key the code records (null for kept-but-unmoved keys), with its old node when the props type is kept and a fresh node otherwise |
| Reconciler.PhasesCompose | GReact/GReact.cs:53-89 | the log grows by the update chunks, then creations, then moves, then frees, in that order, each as the queues prescribe |
| Reconciler.NewDictReady | GReact/GReact.cs:109-117 | a successful fill of the new dictionary holds the pre-order entries under distinct keys, in order |
| Reconciler.FillNewKeys | GReact/GReact.cs:113 | with no repeated key, filling appends the new keys in order |
| Reconciler.Renderer.Render | GReact/GReact.cs:9-94 | first render: builds the whole tree (no duplicate check), logging `FirstRenderOps` and keeping `FirstGraph`. Later: fails on the first repeated key with host and `oldGraph` unchanged, else runs the phases (`Rerendered`) and keeps a populated tree that mirrors the new one |
| Reconciler.Renderer.Rerender | GReact/GReact.cs:12-93 | a non-first render: duplicate key → error, nothing changed; otherwise phases done and `oldGraph` rebuilt |
| Reconciler.Renderer.ReconcileTrees | GReact/GReact.cs:19-92 | from filled dictionaries without repeats: phases done and `oldGraph` is the populated new tree |
| Reconciler.Renderer.Reconcile | GReact/GReact.cs:19-89 | builds the queues and runs the four phases; the log and new dictionary are as `PhasesDone` states |
| Reconciler.Renderer.UpdateAndCreate | GReact/GReact.cs:51-71 | a fresh new dictionary gets the updates, then the creations, and the log grows by their calls in that order |
| Reconciler.Renderer.BuildFirstTimeGraph | GReact/GReact.cs:119-125 | renders the subtree in pre-order: fresh nodes, attachments to the parent node, the parent key recorded; equals `FirstGraph` |
| Reconciler.Renderer.BuildChildren | GReact/GReact.cs:123 | the children are built in order, each subtree after the previous one's nodes and calls |
| Reconciler.Renderer.FillOldElemDict | GReact/GReact.cs:102-107 | records every old populated element under its key in pre-order |
| Reconciler.Renderer.FillNewElemDict | GReact/GReact.cs:109-117 | fails exactly at the first repeated key (`DuplicateCheck`); on success records each element with its parent key in pre-order |
| Reconciler.Renderer.BuildQueues | GReact/GReact.cs:21-35 | the loop over the new dictionary builds exactly the update, creation and move queues of `Diff` |
| Reconciler.Renderer.BuildDestructionQueue | GReact/GReact.cs:39-44 | the loop over the old dictionary builds exactly `Diff.DestructionQueue` |
| Reconciler.Renderer.ExecuteUpdates | GReact/GReact.cs:53-58 | renders each updated key against its old element in queue order; the dictionary and log record each result and its chunk, a replacement node attached under the parent the old node had when its update began |
| Reconciler.Renderer.UpdateElement | GReact/GReact.cs:54-57 | one update: a modified old node, or a fresh node attached under the old node's current parent with the old node freed; the result, with no parent key, recorded under its key |
| Reconciler.Renderer.ExecuteCreations | GReact/GReact.cs:59-71 | creates each queued element, attaches it under its parent's node or the container, records its parent key; the log is `CreationOps` |
| Reconciler.Renderer.CreateElement | GReact/GReact.cs:62-70 | one creation: a fresh node, its attachment, and the entry recorded with its parent key |
| Reconciler.Renderer.ExecuteMoves | GReact/GReact.cs:72-83 | gives each moved key its new parent key and re-attaches its node; the dictionary is `ApplyMoves`, the log `MoveOps` |
| Reconciler.Renderer.MoveAndDestroy | GReact/GReact.cs:72-89 | the moves, then the frees, in that order |
| Reconciler.Renderer.ExecuteDestructions | GReact/GReact.cs:84-89 | frees the queued nodes in order, last |
| Reconciler.Renderer.PopulateGraph | GReact/GReact.cs:96-100 | the rebuilt tree mirrors the new element tree and takes each key's node and parent key from the dictionary |
| Signals.SignalEquals | GReact/Signal.cs:62-67 | equal iff same class and props type, equal props and the same callback; never equal across specialisations |
| Signals.Invoke | GReact/Signal.cs:55-102 | firing calls the signal's user delegate with the recorded node, the props and the argument (lines 55-60); for `CallCallback` (line 102) the wrapped delegate runs with the node and the argument, without props |
| Signals.Specialize | GReact/Signal.cs:82-85 | `New(callback, props)` fires `callback(node, props, arg)` and never equals a plain signal |
| Signals.Wrap | GReact/Signal.cs:86-89 | `New(callback)` fires `callback(node, arg)` through `CallCallback` |
| Signals.PlainSignalsEqual | GReact/Signal.cs:86-89 | two plain signals are equal iff they wrap the same callback |
| Signals.EqualSignalsInvokeAlike | GReact/Signal.cs:94 | equal signals make the same delegate call, so skipping their rebind is harmless to `Call` |
| Signals.Signal.New | GReact/Signal.cs:147-150 | a fresh signal with the given callback and props and no node |
| Signals.Signal.NewPlain | GReact/Signal.cs:151-154 | a fresh signal wrapping the callback, with no node |
| Signals.Signal.Equals | GReact/Signal.cs:127-132 | `Equals(other)` iff other is non-null with an equal value |
| Signals.Signal.Call | GReact/Signal.cs:121-126 | no node recorded → error; otherwise `Invoke` with the recorded node |
| Signals.Signal.Connect | GReact/Signal.cs:92-100 | records the node; equal old signal → no host call; null → one connect; unequal → disconnect old then connect this |
| Signals.Signal.ConnectFixed | GReact/Signal.cs:157-165 | corrected: exactly one live connection on the event afterwards, to a signal equal to this one |
| Signals.StaleConnectionScenario | GReact/Signal.cs:92-100 | as written: signals a, a' (equal), b over three frames leave both a and b connected |
| Signals.FixedConnectionScenario | GReact/Signal.cs:92-100 | corrected: the same frames leave only b connected |

## Left out

- Elements.Element.Render: in the props-type-mismatch branch, the old node's children are not moved to the new node (GReact/GReact.cs:174-176). That outcome depends on Godot's reparenting rules, so the model claims nothing about which children survive.
- Elements.Element.Child: the source adds the child to the receiver's children `List` in place, so every reference to that element sees it, and callers may discard the result. The model returns a new element value instead, so that in-place update and its aliasing are not captured.
- Godot's own rules are not modelled. In Godot, `AddChild` on a node that already has a parent errors, `Free` also frees descendants, and `Disconnect` of a missing connection prints an error. The host instead re-parents on every `AddChild`, detaches only the freed node, and leaves a missing connection alone.
- The `createNode` and `modifyNode` delegates and signal callbacks are foreign code. A delegate is an identity; its effect is the logged host call or the returned `Invocation` value.
- Props equality for a user `PropT` is structural equality of an opaque value. A `PropT` with a custom `Equals` is not modelled.
- `IElement` dispatch: the element type `Element<PropT>` is a `propsType` tag, and the `is Element<PropT>` test compares tags.
- `Element.GetKey`: a getter that nothing in the core calls.
- `LambdaChecker`: reflection on compiler-generated closures, giving only a debug warning.
- `GetHashCode` on signals: wrapping integer arithmetic over runtime hash codes, not behavioural.
- The method name passed to Godot's `Connect` (`nameof(Call)`) is not modelled. A connection is identified by (node, signal name, target).
- `Signals.Signal.Call`: the one-argument `Arg1T` value is an opaque string.
- `UIDim`, the UI components, the source generator and the example application are not part of this model.

## Findings

| source | as written | input that shows it | evidently intended | confidence | as-written member | corrected member |
|---|---|---|---|---|---|---|
| GReact/GReact.cs:194-199 | an updated element gets the null parent key from the `PopulatedElement` constructor and keeps it unless it is also moved | render x[y], x[y] again, then y alone: y is not moved out of x, which is freed; rendering x[y] a third time instead moves y under the x it is already under | every populated element records its current parent key | high; not executed | Diff.StaleParentKeyScenario | Diff.FixedScenario |
| GReact/Signal.cs:92-100 | an equal new signal skips the rebind, but the host stays connected to the old signal object; the next unequal `Connect` disconnects the previous frame's object, which was never connected | three frames with signals a, a' (equal to a), then b on one button event: a and b both stay connected | after each frame, one live connection per event, to a signal equal to the current one | medium (relies on Godot keying connections by target object); not executed | Signals.StaleConnectionScenario | Signals.Signal.ConnectFixed |

`Renderer.Render` keeps the first row's behaviour as written, because it
models the code. The corrected recording, `Diff.RecordedParentKeyFixed`, is
proved free of spurious moves (`Diff.FixedRecordingNoSpuriousMoves`).
