/** Signals: a host event handler described as a value (a props-type tag, a
    props value and a callback), bound to a host node's event by `Connect`,
    which rebinds only when the new signal differs from the previous frame's.
    `Signal` and `Signal<Arg1T>` differ only in the extra call argument, so
    one class covers both, the `kind` telling them apart. */
module Signals {
  import opened Wrappers
  import opened HostGraph

  /** `Signal` (handlers take no argument) or `Signal<Arg1T>` (one argument
      of the named type). */
  datatype SignalKind = NoArg | OneArg(argType: string)

  /** An argument the host passes when it fires a one-argument signal. */
  type ArgValue = string

  /** A signal's callback: a user delegate, or the class's private static
      `CallCallback`. Delegates compare by identity, as C# `==` on delegates
      of static methods does. */
  datatype Callback = User(name: Delegate) | CallCallback

  /** What a specialised signal stores as `props`: user props of type `PropT`,
      or the private `CallbackHolder` struct wrapping a user delegate. */
  datatype SignalProps = UserProps(propsType: PropsType, props: Props) | CallbackHolder(callback: Delegate)

  /** A `SpecializedSignal<PropT>`: its class, props and callback. */
  datatype SignalValue = SignalValue(kind: SignalKind, props: SignalProps, callback: Callback)

  /** The user delegate call made when a signal fires: the delegate, the node
      it fires on, the props (none for a wrapped delegate) and the argument. */
  datatype Invocation = Invocation(callback: Delegate, node: Node, props: Option<Props>, arg: Option<ArgValue>)

  datatype SignalError = NoNodeRecorded

  /** The closed generic class `SpecializedSignal<PropT>` of a value. */
  function Specialization(v: SignalValue): (SignalKind, Option<PropsType>)
  {
    (v.kind, if v.props.UserProps? then Some(v.props.propsType) else None)
  }

  /** The pairing every `New` produces: `CallCallback` goes with a
      `CallbackHolder`, a user delegate with user props. */
  predicate WellTyped(v: SignalValue)
  {
    v.callback.CallCallback? <==> v.props.CallbackHolder?
  }

  /** `SpecializedSignal<PropT>.Equals`: false for another specialised class,
      otherwise equal props and the same callback. */
  function SignalEquals(a: SignalValue, b: SignalValue): (r: bool)
    ensures r <==> a.kind == b.kind && a.props == b.props && a.callback == b.callback
    ensures Specialization(a) != Specialization(b) ==> !r
  {
    if Specialization(a) == Specialization(b) then a.props == b.props && a.callback == b.callback
    else false
  }

  /** `SpecializedSignal<PropT>.Call` followed, for `CallCallback`, by the
      body of `CallCallback`: the user delegate that runs and what it gets. */
  function Invoke(v: SignalValue, node: Node, arg: Option<ArgValue>): (inv: Invocation)
    requires WellTyped(v)
    ensures inv.node == node && inv.arg == arg
    ensures v.props.UserProps? ==> inv.props == Some(v.props.props) && inv.callback == v.callback.name
    ensures v.props.CallbackHolder? ==> inv.props == None && inv.callback == v.props.callback
  {
    match v.callback
    case User(name) => Invocation(name, node, Some(v.props.props), arg)
    case CallCallback => Invocation(v.props.callback, node, None, arg)
  }

  /** The value `New<PropT>(callback, props)` builds. */
  function Specialize(kind: SignalKind, callback: Delegate, propsType: PropsType, props: Props): (v: SignalValue)
    ensures WellTyped(v)
    ensures forall n, arg :: Invoke(v, n, arg) == Invocation(callback, n, Some(props), arg)
    ensures forall c :: !SignalEquals(v, Wrap(kind, c))
  {
    SignalValue(kind, UserProps(propsType, props), User(callback))
  }

  /** The value `New(callback)` builds: the callback wrapped in a
      `CallbackHolder` behind `CallCallback`. */
  function Wrap(kind: SignalKind, callback: Delegate): (v: SignalValue)
    ensures WellTyped(v)
    ensures forall n, arg :: Invoke(v, n, arg) == Invocation(callback, n, None, arg)
  {
    SignalValue(kind, CallbackHolder(callback), CallCallback)
  }

  /** Two signals built by `New(callback)` are equal exactly when they wrap
      the same callback. */
  lemma PlainSignalsEqual(kind: SignalKind, c1: Delegate, c2: Delegate)
    ensures SignalEquals(Wrap(kind, c1), Wrap(kind, c2)) <==> c1 == c2
  {
  }

  /** Two equal signals make the same delegate call wherever they fire, which
      is what makes skipping the rebind of an equal signal harmless. */
  lemma EqualSignalsInvokeAlike(a: SignalValue, b: SignalValue, node: Node, arg: Option<ArgValue>)
    requires WellTyped(a) && WellTyped(b) && SignalEquals(a, b)
    ensures Invoke(a, node, arg) == Invoke(b, node, arg)
  {
  }

  /** The connection targets of one event (`signalName`) of one node. */
  ghost function Slot(conns: set<(Node, string, object)>, n: Node, signalName: string): set<object>
  {
    set c | c in conns && c.0 == n && c.1 == signalName :: c.2
  }

  /** A connection adds its target to its slot. */
  lemma SlotAdd(conns: set<(Node, string, object)>, n: Node, signalName: string, t: object)
    ensures Slot(conns + {(n, signalName, t)}, n, signalName) == Slot(conns, n, signalName) + {t}
  {
    assert (n, signalName, t) in conns + {(n, signalName, t)};
  }

  /** A disconnection removes its target from its slot. */
  lemma SlotRemove(conns: set<(Node, string, object)>, n: Node, signalName: string, o: object)
    ensures Slot(conns - {(n, signalName, o)}, n, signalName) == Slot(conns, n, signalName) - {o}
  {
    var mid := conns - {(n, signalName, o)};
    forall x | x in Slot(conns, n, signalName) - {o}
      ensures x in Slot(mid, n, signalName)
    {
      var c :| c in conns && c.0 == n && c.1 == signalName && c.2 == x;
      assert c in mid;
    }
  }

  /** Replacing the only target of a slot leaves just the new target. */
  lemma SlotRebind(conns: set<(Node, string, object)>, n: Node, signalName: string, o: object, t: object)
    requires Slot(conns, n, signalName) <= {o}
    ensures Slot(conns - {(n, signalName, o)} + {(n, signalName, t)}, n, signalName) == {t}
  {
    SlotRemove(conns, n, signalName, o);
    SlotAdd(conns - {(n, signalName, o)}, n, signalName, t);
  }

  class Signal {
    const value: SignalValue
    /** The node this signal was last connected on; none before `Connect`. */
    var node: Option<Node>
    /** The signal object the host connection for this handler targets; used
        by the corrected `ConnectFixed` only. */
    var bound: Signal?

    predicate Valid()
    {
      WellTyped(value)
    }

    constructor (v: SignalValue)
      requires WellTyped(v)
      ensures value == v && node == None && bound == null
    {
      value := v;
      node := None;
      bound := null;
    }

    /** `Signal.New<PropT>(callback, props)`. */
    static method New(kind: SignalKind, callback: Delegate, propsType: PropsType, props: Props) returns (s: Signal)
      ensures fresh(s) && s.Valid()
      ensures s.value == Specialize(kind, callback, propsType, props) && s.node == None && s.bound == null
    {
      s := new Signal(Specialize(kind, callback, propsType, props));
    }

    /** `Signal.New(callback)`. */
    static method NewPlain(kind: SignalKind, callback: Delegate) returns (s: Signal)
      ensures fresh(s) && s.Valid()
      ensures s.value == Wrap(kind, callback) && s.node == None && s.bound == null
    {
      s := new Signal(Wrap(kind, callback));
    }

    /** `Equals(other)`: a null reference is never equal. */
    function Equals(other: Signal?): (r: bool)
      ensures r <==> other != null && other.value == value
    {
      other != null && SignalEquals(value, other.value)
    }

    /** `Call()` / `Call(arg)`: fails when no node was recorded, otherwise
        runs the callback with the recorded node and the stored props. */
    method Call(arg: Option<ArgValue>) returns (r: Result<Invocation, SignalError>)
      requires Valid()
      requires arg.Some? <==> value.kind.OneArg?
      ensures node.None? ==> r == Err(NoNodeRecorded)
      ensures node.Some? ==> r == Ok(Invoke(value, node.value, arg))
    {
      if node == None {
        return Err(NoNodeRecorded);
      }
      r := Ok(Invoke(value, node.value, arg));
    }

    /** `Connect(node, signalName, oldSignal)`: records the node, then, unless
        the previous frame's signal is equal, disconnects that one (if any)
        and connects this one. */
    method Connect(host: Host, n: Node, signalName: string, oldSignal: Signal?)
      requires host.Valid()
      requires oldSignal != null ==> oldSignal.value.kind == value.kind
      modifies this, host
      ensures host.Valid() && host.next == old(host.next)
      ensures node == Some(n) && bound == old(bound)
      ensures Equals(oldSignal) ==> host.log == old(host.log)
      ensures oldSignal == null ==> host.log == old(host.log) + [Connected(n, signalName, this)]
      ensures oldSignal != null && !Equals(oldSignal) ==>
        host.log == old(host.log) + [Disconnected(n, signalName, oldSignal), Connected(n, signalName, this)]
      ensures Equals(oldSignal) ==> host.connections == old(host.connections)
      ensures oldSignal == null ==> host.connections == old(host.connections) + {(n, signalName, this)}
      ensures oldSignal != null && !Equals(oldSignal) ==>
        host.connections == old(host.connections) - {(n, signalName, oldSignal)} + {(n, signalName, this)}
    {
      node := Some(n);
      if oldSignal == null || !Equals(oldSignal) {
        if oldSignal != null {
          host.Disconnect(n, signalName, oldSignal);
        }
        host.Connect(n, signalName, this);
      }
    }

    /** The object a signal's host connection targets, as `ConnectFixed` keeps
        it: the signal itself until it adopts an older equal one. */
    function Target(): (t: Signal)
      reads this
      ensures bound != null ==> t == bound
    {
      if bound == null then this else bound
    }

    /** `Connect` corrected: an equal signal adopts the connection's real
        target instead of leaving it unrecorded, and an unequal one
        disconnects that target. Each frame then leaves exactly one live
        connection on the event, to a signal equal to the current one. */
    method ConnectFixed(host: Host, n: Node, signalName: string, oldSignal: Signal?)
      requires host.Valid()
      requires oldSignal != null ==> oldSignal.value.kind == value.kind && oldSignal.Target().value == oldSignal.value
      requires oldSignal == null ==> Slot(host.connections, n, signalName) == {}
      requires oldSignal != null ==> Slot(host.connections, n, signalName) == {oldSignal.Target()}
      modifies this, host
      ensures host.Valid() && host.next == old(host.next) && node == Some(n)
      ensures Equals(oldSignal) ==> host.log == old(host.log)
      ensures oldSignal == null ==> host.log == old(host.log) + [Connected(n, signalName, this)]
      ensures Slot(host.connections, n, signalName) == {Target()}
      ensures Target().value == value
      ensures Equals(oldSignal) ==> Target() == old(oldSignal.Target())
      ensures !Equals(oldSignal) ==> Target() == this
    {
      node := Some(n);
      if oldSignal != null && Equals(oldSignal) {
        bound := oldSignal.Target();
      } else {
        if oldSignal != null {
          SlotRebind(host.connections, n, signalName, oldSignal.Target(), this);
          host.Disconnect(n, signalName, oldSignal.Target());
        } else {
          SlotAdd(host.connections, n, signalName, this);
        }
        host.Connect(n, signalName, this);
        bound := null;
      }
    }
  }

  /** Three frames of one button's `pressed` handler: the first two frames'
      signals are equal, the third's differs. As written, the second frame
      skips the rebind but the host still targets the first frame's object; the
      third frame then disconnects the second frame's object, which was never
      connected, so the first frame's handler stays live beside the third's. */
  method StaleConnectionScenario() returns (host: Host, first: Signal, third: Signal)
    ensures first != third && Slot(host.connections, 0, "pressed") == {first, third}
  {
    host := new Host(1);
    first := Signal.New(NoArg, "OnPressed", "ButtonProps", Props(map["label" := "a"]));
    var second := Signal.New(NoArg, "OnPressed", "ButtonProps", Props(map["label" := "a"]));
    third := Signal.New(NoArg, "OnPressed", "ButtonProps", Props(map["label" := "b"]));
    first.Connect(host, 0, "pressed", null);
    second.Connect(host, 0, "pressed", first);
    assert Props(map["label" := "a"]) != Props(map["label" := "b"]) by {
      assert Props(map["label" := "a"]).fields["label"] == "a";
    }
    third.Connect(host, 0, "pressed", second);
    assert Slot(host.connections, 0, "pressed") == {first, third};
  }

  /** The same three frames with `ConnectFixed`: only the third frame's
      handler is live. */
  method FixedConnectionScenario() returns (host: Host, third: Signal)
    ensures Slot(host.connections, 0, "pressed") == {third}
  {
    host := new Host(1);
    var first := Signal.New(NoArg, "OnPressed", "ButtonProps", Props(map["label" := "a"]));
    var second := Signal.New(NoArg, "OnPressed", "ButtonProps", Props(map["label" := "a"]));
    third := Signal.New(NoArg, "OnPressed", "ButtonProps", Props(map["label" := "b"]));
    first.ConnectFixed(host, 0, "pressed", null);
    second.ConnectFixed(host, 0, "pressed", first);
    assert Props(map["label" := "a"]) != Props(map["label" := "b"]) by {
      assert Props(map["label" := "a"]).fields["label"] == "a";
    }
    third.ConnectFixed(host, 0, "pressed", second);
  }
}
