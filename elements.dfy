/** Elements (the immutable per-frame description of the UI) and populated
    elements (an element bound to the host node it produced). */
module Elements {
  import opened Wrappers
  import opened HostGraph

  /** Element keys are global: unique across the whole tree, not per parent. */
  type Key = string

  /** `Element<PropT>`: a key, the props type `PropT`, the props, the two
      delegates, and the ordered children. */
  datatype Element = Element(key: Key, propsType: PropsType, props: Props,
                             createNode: Delegate, modifyNode: Delegate,
                             children: seq<Element>)
  {
    /** `Element<PropT>.New`: an element with no children. */
    static function New(key: Key, propsType: PropsType, props: Props,
                        createNode: Delegate, modifyNode: Delegate): (e: Element)
      ensures e.key == key && e.propsType == propsType && e.props == props
      ensures e.createNode == createNode && e.modifyNode == modifyNode && e.children == []
      ensures Flatten(e, None) == [Entry(e, None)]
    {
      Element(key, propsType, props, createNode, modifyNode, [])
    }

    /** `Element<PropT>.Child`: appends one child. */
    function Child(child: Element): (e: Element)
      ensures e.key == key && e.propsType == propsType && e.props == props
      ensures e.createNode == createNode && e.modifyNode == modifyNode
      ensures |e.children| == |children| + 1 && e.children[..|children|] == children
      ensures e.children[|children|] == child
    {
      this.(children := children + [child])
    }

    /** `Element<PropT>.Render`: binds this element to a host node. Without a
        previous populated element it creates a node; with one of the same
        props type it keeps that node and calls `modifyNode` on it; with one of
        another props type it creates a node, attaches it where the old one was
        and frees the old one. The result never has children or a parent key. */
    method Render(host: Host, prev: Option<PopulatedElement>) returns (p: PopulatedElement)
      requires host.Valid()
      modifies host
      ensures host.Valid()
      ensures p.elem == this && p.children == [] && p.parentKey == None
      ensures prev.None? ==>
        && p.node == old(host.next) && host.next == old(host.next) + 1
        && host.log == old(host.log) + [Created(p.node, createNode, props)]
      ensures prev.Some? && prev.value.elem.propsType == propsType ==>
        && p.node == prev.value.node && host.next == old(host.next)
        && host.log == old(host.log) + [Modified(p.node, modifyNode, prev.value.elem.props, props)]
      ensures prev.Some? && prev.value.elem.propsType != propsType ==>
        && p.node == old(host.next) && host.next == old(host.next) + 1
        && host.log == old(host.log) + [Created(p.node, createNode, props)]
                       + ReattachOps(old(host.GetParent(prev.value.node)), p.node)
                       + [Freed(prev.value.node)]
    {
      if prev.None? {
        var n := host.CreateNode(createNode, props);
        p := NewPopulated(this, n);
      } else if prev.value.elem.propsType == propsType {
        host.ModifyNode(prev.value.node, modifyNode, prev.value.elem.props, props);
        p := NewPopulated(this, prev.value.node);
      } else {
        var newNode := host.CreateNode(createNode, props);
        var oldNode := prev.value.node;
        var oldParent := host.GetParent(oldNode);
        if oldParent.Some? {
          host.AddChild(oldParent.value, newNode);
        }
        host.Free(oldNode);
        p := NewPopulated(this, newNode);
      }
    }
  }

  /** The attachment a replacement node gets: under the old node's parent, if any. */
  function ReattachOps(oldParent: Option<Node>, newNode: Node): seq<HostOp>
  {
    if oldParent.Some? then [Attached(oldParent.value, newNode)] else []
  }

  /** `PopulatedElement` (a struct): the element, its host node, its populated
      children and the key of its parent element as last recorded. */
  datatype PopulatedElement = PopulatedElement(elem: Element, node: Node,
                                               children: seq<PopulatedElement>,
                                               parentKey: Option<Key>)

  /** The `PopulatedElement(element, node)` constructor. */
  function NewPopulated(elem: Element, node: Node): (p: PopulatedElement)
    ensures p.elem == elem && p.node == node
    ensures p.children == [] && p.parentKey == None
  {
    PopulatedElement(elem, node, [], None)
  }

  /** An element with the key of its parent element (`(IElement, string?)`). */
  datatype Entry = Entry(elem: Element, parentKey: Option<Key>)

  /** The elements of a tree in pre-order, each with its parent's key. */
  function Flatten(e: Element, parentKey: Option<Key>): seq<Entry>
    decreases e, 1
  {
    [Entry(e, parentKey)] + FlattenAll(e.children, Some(e.key))
  }

  function FlattenAll(es: seq<Element>, parentKey: Option<Key>): seq<Entry>
    decreases es, 0
  {
    if es == [] then []
    else FlattenAll(es[..|es| - 1], parentKey) + Flatten(es[|es| - 1], parentKey)
  }

  function Keys(s: seq<Entry>): (ks: seq<Key>)
    ensures |ks| == |s|
    ensures forall i :: 0 <= i < |s| ==> ks[i] == s[i].elem.key
  {
    seq(|s|, i requires 0 <= i < |s| => s[i].elem.key)
  }

  predicate NoDup<T(==)>(s: seq<T>)
  {
    forall i, j :: 0 <= i < j < |s| ==> s[i] != s[j]
  }

  /** A prefix one longer is the prefix with the next element. */
  lemma TakeNext<T>(s: seq<T>, i: nat)
    requires i < |s|
    ensures s[..i + 1] == s[..i] + [s[i]]
  {
  }

  /** Two elements appended one after the other. */
  lemma SnocSnoc<T>(s: seq<T>, x: T, y: T)
    ensures s + [x] + [y] == s + [x, y]
  {
  }

  /** With no duplicates, each element is new when it is reached. */
  lemma NoDupFresh<T>(s: seq<T>, i: nat)
    requires NoDup(s) && i < |s|
    ensures s[i] !in s[..i]
  {
    forall j | 0 <= j < i
      ensures s[..i][j] != s[i]
    {
    }
  }

  /** The number of elements in a tree. */
  function Size(e: Element): nat
    decreases e, 1
  {
    1 + SizeAll(e.children)
  }

  function SizeAll(es: seq<Element>): nat
    decreases es, 0
  {
    if es == [] then 0 else SizeAll(es[..|es| - 1]) + Size(es[|es| - 1])
  }

  /** Appending a child appends its subtree to the pre-order of the parent:
      the entries after the root grow by exactly the child's subtree. */
  lemma {:induction false} ChildAppendsSubtree(e: Element, child: Element, parentKey: Option<Key>)
    ensures Flatten(e.Child(child), parentKey)
         == [Entry(e.Child(child), parentKey)] + Flatten(e, parentKey)[1..] + Flatten(child, Some(e.key))
  {
    var cs := e.Child(child).children;
    assert cs[..|cs| - 1] == e.children;
    assert FlattenAll(cs, Some(e.key)) == FlattenAll(e.children, Some(e.key)) + Flatten(child, Some(e.key));
    assert Flatten(e, parentKey)[1..] == FlattenAll(e.children, Some(e.key));
  }

  /** Appending a child appends its subtree's keys to the parent's keys. */
  lemma ChildAppendsKeys(e: Element, child: Element, parentKey: Option<Key>)
    ensures Keys(Flatten(e.Child(child), parentKey))
         == Keys(Flatten(e, parentKey)) + Keys(Flatten(child, Some(e.key)))
  {
    ChildAppendsSubtree(e, child, parentKey);
    var f, fc := Flatten(e, parentKey), Flatten(child, Some(e.key));
    var g := Flatten(e.Child(child), parentKey);
    forall i | 0 <= i < |g|
      ensures Keys(g)[i] == (Keys(f) + Keys(fc))[i]
    {
      if 0 < i < |f| {
        assert g[i] == f[1..][i - 1];
      } else if i >= |f| {
        assert g[i] == fc[i - |f|];
      }
    }
  }

  /** A tree of `Size(e)` elements flattens to `Size(e)` entries. */
  lemma {:induction false} FlattenSize(e: Element, parentKey: Option<Key>)
    ensures |Flatten(e, parentKey)| == Size(e)
    decreases e, 1
  {
    FlattenAllSize(e.children, Some(e.key));
  }

  lemma {:induction false} FlattenAllSize(es: seq<Element>, parentKey: Option<Key>)
    ensures |FlattenAll(es, parentKey)| == SizeAll(es)
    decreases es, 0
  {
    if es != [] {
      FlattenAllSize(es[..|es| - 1], parentKey);
      FlattenSize(es[|es| - 1], parentKey);
    }
  }

  /** Every entry of a child's subtree is an entry of the children's pre-order. */
  lemma {:induction false} FlattenAllContains(es: seq<Element>, parentKey: Option<Key>, i: nat)
    requires i < |es|
    ensures forall x :: x in Flatten(es[i], parentKey) ==> x in FlattenAll(es, parentKey)
  {
    if i < |es| - 1 {
      FlattenAllContains(es[..|es| - 1], parentKey, i);
    }
  }

  /** In a pre-order, each entry's parent is `outer` or the key of an earlier entry. */
  ghost predicate ParentsBefore(s: seq<Entry>, outer: Option<Key>)
  {
    forall j :: 0 <= j < |s| ==>
      s[j].parentKey == outer || (s[j].parentKey.Some? && s[j].parentKey.value in Keys(s[..j]))
  }

  lemma ParentsBeforeConcat(a: seq<Entry>, b: seq<Entry>, outer: Option<Key>)
    requires ParentsBefore(a, outer) && ParentsBefore(b, outer)
    ensures ParentsBefore(a + b, outer)
  {
    var s := a + b;
    forall j | 0 <= j < |s|
      ensures s[j].parentKey == outer || (s[j].parentKey.Some? && s[j].parentKey.value in Keys(s[..j]))
    {
      if j < |a| {
        assert s[..j] == a[..j];
      } else {
        assert s[j] == b[j - |a|];
        assert s[..j] == a + b[..j - |a|];
        assert Keys(s[..j]) == Keys(a) + Keys(b[..j - |a|]);
      }
    }
  }

  /** Pre-order lists every parent before its children: the root's parent is
      `parentKey`, every other entry's parent is the key of an earlier entry. */
  lemma {:induction false} FlattenParentsBefore(e: Element, parentKey: Option<Key>)
    ensures ParentsBefore(Flatten(e, parentKey), parentKey)
    decreases e, 1
  {
    FlattenAllParentsBefore(e.children, Some(e.key));
    var s := Flatten(e, parentKey);
    var t := FlattenAll(e.children, Some(e.key));
    forall j | 0 <= j < |s|
      ensures s[j].parentKey == parentKey || (s[j].parentKey.Some? && s[j].parentKey.value in Keys(s[..j]))
    {
      if j > 0 {
        assert s[j] == t[j - 1];
        assert s[..j] == [Entry(e, parentKey)] + t[..j - 1];
        assert Keys(s[..j])[0] == e.key;
        if t[j - 1].parentKey != Some(e.key) {
          assert Keys(s[..j]) == [e.key] + Keys(t[..j - 1]);
        }
      }
    }
  }

  lemma {:induction false} FlattenAllParentsBefore(es: seq<Element>, parentKey: Option<Key>)
    requires parentKey.Some?
    ensures ParentsBefore(FlattenAll(es, parentKey), parentKey)
    decreases es, 0
  {
    if es != [] {
      FlattenAllParentsBefore(es[..|es| - 1], parentKey);
      FlattenParentsBefore(es[|es| - 1], parentKey);
      ParentsBeforeConcat(FlattenAll(es[..|es| - 1], parentKey), Flatten(es[|es| - 1], parentKey), parentKey);
    }
  }

  /** The populated tree has the shape of the element tree: the same element
      at every position. */
  ghost predicate Mirrors(p: PopulatedElement, e: Element)
    decreases e
  {
    && p.elem == e
    && |p.children| == |e.children|
    && forall i :: 0 <= i < |e.children| ==> Mirrors(p.children[i], e.children[i])
  }

  /** Every populated element records the key of its parent element. */
  ghost predicate RecordsParents(p: PopulatedElement, parentKey: Option<Key>)
    decreases p
  {
    && p.parentKey == parentKey
    && forall i :: 0 <= i < |p.children| ==> RecordsParents(p.children[i], Some(p.elem.key))
  }

  /** The host nodes of a populated tree in pre-order. */
  function PopNodes(p: PopulatedElement): seq<Node>
    decreases p, 1
  {
    [p.node] + PopNodesAll(p.children)
  }

  function PopNodesAll(ps: seq<PopulatedElement>): seq<Node>
    decreases ps, 0
  {
    if ps == [] then [] else PopNodesAll(ps[..|ps| - 1]) + PopNodes(ps[|ps| - 1])
  }

  /** The populated elements of a tree in pre-order, with their keys. */
  function PopPairs(p: PopulatedElement): seq<(Key, PopulatedElement)>
    decreases p, 1
  {
    [(p.elem.key, p)] + PopPairsAll(p.children)
  }

  function PopPairsAll(ps: seq<PopulatedElement>): seq<(Key, PopulatedElement)>
    decreases ps, 0
  {
    if ps == [] then [] else PopPairsAll(ps[..|ps| - 1]) + PopPairs(ps[|ps| - 1])
  }

  /** The pre-order of a forest is the pre-orders of its parts laid end to end. */
  lemma {:induction false} FlattenAllConcat(a: seq<Element>, b: seq<Element>, parentKey: Option<Key>)
    ensures FlattenAll(a + b, parentKey) == FlattenAll(a, parentKey) + FlattenAll(b, parentKey)
    decreases |b|
  {
    if b == [] {
      assert a + b == a;
    } else {
      assert (a + b)[..|a + b| - 1] == a + b[..|b| - 1];
      FlattenAllConcat(a, b[..|b| - 1], parentKey);
    }
  }

  /** The pre-order of a forest around its `i`-th tree. */
  lemma FlattenAllSplit(es: seq<Element>, parentKey: Option<Key>, i: nat)
    requires i < |es|
    ensures FlattenAll(es, parentKey) ==
      FlattenAll(es[..i], parentKey) + Flatten(es[i], parentKey) + FlattenAll(es[i + 1..], parentKey)
  {
    assert es == es[..i] + [es[i]] + es[i + 1..];
    assert [es[i]][..0] == [];
    FlattenAllConcat(es[..i] + [es[i]], es[i + 1..], parentKey);
    FlattenAllConcat(es[..i], [es[i]], parentKey);
  }
}
