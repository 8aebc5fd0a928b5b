/** The host scene graph (Godot's node tree) as the reconciler and the signal
    binder see it: node handles, a parent map, a set of freed nodes and a set of
    signal connections. The host's whole state is the log of the operations
    issued against it; `Valid` keeps the derived fields equal to folds over that
    log, so a method that states the new log states the new state. */
module HostGraph {
  import opened Wrappers

  /** A handle of a host node (`Godot.Node`). */
  type Node = nat

  /** The runtime type of an element's props struct (`PropT`). */
  type PropsType = string

  /** The identity of a delegate (`CreateNode<PropT>`, `ModifyNode<PropT>`). */
  type Delegate = string

  /** An opaque, comparable props value. */
  datatype Props = Props(fields: map<string, string>)

  /** One call into the host. */
  datatype HostOp =
    | Created(node: Node, createNode: Delegate, props: Props)
    | Modified(node: Node, modifyNode: Delegate, oldProps: Props, newProps: Props)
    | Attached(parent: Node, child: Node)
    | Freed(node: Node)
    | Connected(source: Node, signalName: string, target: object)
    | Disconnected(source: Node, signalName: string, target: object)

  /** The parent of every attached node after `log`. */
  ghost function ParentsAfter(log: seq<HostOp>): map<Node, Node>
  {
    if log == [] then map[]
    else
      var m := ParentsAfter(log[..|log| - 1]);
      match log[|log| - 1]
      case Attached(p, c) => m[c := p]
      case Freed(n) => m - {n}
      case _ => m
  }

  /** The parent of `n` after `log`, if it has one. */
  ghost function ParentAfter(log: seq<HostOp>, n: Node): Option<Node>
  {
    if n in ParentsAfter(log) then Some(ParentsAfter(log)[n]) else None
  }

  /** `log[i]` attached `n` under `p`, and no later operation attached or
      freed `n`. */
  ghost predicate LastAttachedAt(log: seq<HostOp>, n: Node, p: Node, i: int)
  {
    && 0 <= i < |log| && log[i] == Attached(p, n)
    && forall j :: i < j < |log| ==> !Touches(log[j], n)
  }

  /** An operation that changes the parent of `n`. */
  predicate Touches(op: HostOp, n: Node)
  {
    (op.Attached? && op.child == n) || (op.Freed? && op.node == n)
  }

  /** A node's parent is the one its last attachment gave it, unless it was
      freed since; a node never attached, or freed after its last attachment,
      has none. */
  lemma {:induction false} ParentAfterLastAttached(log: seq<HostOp>, n: Node)
    ensures ParentAfter(log, n).Some? ==> exists i :: LastAttachedAt(log, n, ParentAfter(log, n).value, i)
    ensures forall p: Node, i: int :: LastAttachedAt(log, n, p, i) ==> ParentAfter(log, n) == Some(p)
  {
    if log != [] {
      var init, op := log[..|log| - 1], log[|log| - 1];
      assert log == init + [op];
      ParentAfterLastAttached(init, n);
      if Touches(op, n) {
        forall p: Node, i: int | LastAttachedAt(log, n, p, i)
          ensures ParentAfter(log, n) == Some(p)
        {
          assert i == |log| - 1;
        }
        if ParentAfter(log, n).Some? {
          assert LastAttachedAt(log, n, ParentAfter(log, n).value, |log| - 1);
        }
      } else {
        assert ParentAfter(log, n) == ParentAfter(init, n);
        forall p: Node, i: int | LastAttachedAt(log, n, p, i)
          ensures ParentAfter(log, n) == Some(p)
        {
          assert LastAttachedAt(init, n, p, i);
        }
        if ParentAfter(log, n).Some? {
          var i :| LastAttachedAt(init, n, ParentAfter(log, n).value, i);
          assert LastAttachedAt(log, n, ParentAfter(log, n).value, i);
        }
      }
    }
  }

  /** The nodes freed by `log`. */
  ghost function FreedAfter(log: seq<HostOp>): set<Node>
  {
    if log == [] then {}
    else
      var s := FreedAfter(log[..|log| - 1]);
      match log[|log| - 1]
      case Freed(n) => s + {n}
      case _ => s
  }

  /** The live (source node, signal name, target object) connections after `log`. */
  ghost function ConnectionsAfter(log: seq<HostOp>): set<(Node, string, object)>
  {
    if log == [] then {}
    else
      var s := ConnectionsAfter(log[..|log| - 1]);
      match log[|log| - 1]
      case Connected(n, name, t) => s + {(n, name, t)}
      case Disconnected(n, name, t) => s - {(n, name, t)}
      case _ => s
  }

  class Host {
    /** The handle the next created node gets. */
    var next: Node
    var parentOf: map<Node, Node>
    var freed: set<Node>
    var connections: set<(Node, string, object)>
    /** Every call made into the host, in order. */
    var log: seq<HostOp>

    ghost predicate Valid()
      reads this
    {
      && parentOf == ParentsAfter(log)
      && freed == FreedAfter(log)
      && connections == ConnectionsAfter(log)
    }

    /** A host whose handles below `first` belong to nodes made outside the
        reconciler (such as the root container). */
    constructor (first: Node)
      ensures Valid() && next == first && log == []
    {
      next := first;
      parentOf := map[];
      freed := {};
      connections := {};
      log := [];
    }

    /** `node.GetParent()`: the parent its last attachment gave it, unless it
        was freed since. */
    function GetParent(n: Node): (r: Option<Node>)
      requires Valid()
      reads this
      ensures r == ParentAfter(log, n)
      ensures r.Some? ==> exists i :: LastAttachedAt(log, n, r.value, i)
      ensures forall p: Node, i: int :: LastAttachedAt(log, n, p, i) ==> r == Some(p)
    {
      ParentAfterLastAttached(log, n);
      if n in parentOf then Some(parentOf[n]) else None
    }

    /** Calls an element's `createNode` delegate: a fresh node. */
    method CreateNode(createNode: Delegate, props: Props) returns (n: Node)
      requires Valid()
      modifies this
      ensures Valid()
      ensures n == old(next) && next == old(next) + 1
      ensures log == old(log) + [Created(n, createNode, props)]
    {
      n := next;
      next := next + 1;
      log := log + [Created(n, createNode, props)];
      assert log[..|log| - 1] == old(log);
    }

    /** Calls an element's `modifyNode` delegate on an existing node. */
    method ModifyNode(n: Node, modifyNode: Delegate, oldProps: Props, newProps: Props)
      requires Valid()
      modifies this
      ensures Valid() && next == old(next)
      ensures log == old(log) + [Modified(n, modifyNode, oldProps, newProps)]
    {
      log := log + [Modified(n, modifyNode, oldProps, newProps)];
      assert log[..|log| - 1] == old(log);
    }

    /** `parent.AddChild(child)`. */
    method AddChild(parent: Node, child: Node)
      requires Valid()
      modifies this
      ensures Valid() && next == old(next)
      ensures log == old(log) + [Attached(parent, child)]
      ensures parentOf == old(parentOf)[child := parent]
    {
      parentOf := parentOf[child := parent];
      log := log + [Attached(parent, child)];
      assert log[..|log| - 1] == old(log);
    }

    /** `node.Free()`. */
    method Free(n: Node)
      requires Valid()
      modifies this
      ensures Valid() && next == old(next)
      ensures log == old(log) + [Freed(n)]
      ensures freed == old(freed) + {n} && parentOf == old(parentOf) - {n}
    {
      parentOf := parentOf - {n};
      freed := freed + {n};
      log := log + [Freed(n)];
      assert log[..|log| - 1] == old(log);
    }

    /** `source.Connect(signalName, target, "Call")`. */
    method Connect(source: Node, signalName: string, target: object)
      requires Valid()
      modifies this
      ensures Valid() && next == old(next)
      ensures log == old(log) + [Connected(source, signalName, target)]
      ensures connections == old(connections) + {(source, signalName, target)}
    {
      connections := connections + {(source, signalName, target)};
      log := log + [Connected(source, signalName, target)];
      assert log[..|log| - 1] == old(log);
    }

    /** `source.Disconnect(signalName, target, "Call")`; a connection that does
        not exist is left alone. */
    method Disconnect(source: Node, signalName: string, target: object)
      requires Valid()
      modifies this
      ensures Valid() && next == old(next)
      ensures log == old(log) + [Disconnected(source, signalName, target)]
      ensures connections == old(connections) - {(source, signalName, target)}
    {
      connections := connections - {(source, signalName, target)};
      log := log + [Disconnected(source, signalName, target)];
      assert log[..|log| - 1] == old(log);
    }
  }
}
