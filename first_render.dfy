/** What the first render of a tree does: the populated tree it builds and the
    host calls it makes, as functions of the element tree and the first free
    node handle. */
module FirstRender {
  import opened Wrappers
  import opened HostGraph
  import opened Elements

  /** The populated tree `BuildFirstTimeGraph` returns when handles are handed
      out from `base` on: nodes are numbered in pre-order. */
  function FirstGraph(e: Element, parentKey: Option<Key>, base: Node): PopulatedElement
    decreases e, 1
  {
    PopulatedElement(e, base, FirstGraphAll(e.children, Some(e.key), base + 1), parentKey)
  }

  function FirstGraphAll(es: seq<Element>, parentKey: Option<Key>, base: Node): seq<PopulatedElement>
    decreases es, 0
  {
    if es == [] then []
    else
      var init := es[..|es| - 1];
      FirstGraphAll(init, parentKey, base) + [FirstGraph(es[|es| - 1], parentKey, base + SizeAll(init))]
  }

  /** The host calls of `BuildFirstTimeGraph`: in pre-order, create each
      element's node, then attach it under `parentNode` (the root) or under its
      parent element's node. */
  function FirstRenderOps(e: Element, parentNode: Node, base: Node): seq<HostOp>
    decreases e, 1
  {
    [Created(base, e.createNode, e.props), Attached(parentNode, base)]
      + FirstRenderOpsAll(e.children, base, base + 1)
  }

  function FirstRenderOpsAll(es: seq<Element>, parentNode: Node, base: Node): seq<HostOp>
    decreases es, 0
  {
    if es == [] then []
    else
      var init := es[..|es| - 1];
      FirstRenderOpsAll(init, parentNode, base) + FirstRenderOps(es[|es| - 1], parentNode, base + SizeAll(init))
  }

  /** Host calls read off a populated tree: each node created from its element
      and attached under its parent populated element's node. */
  function BindingOps(p: PopulatedElement, parentNode: Node): seq<HostOp>
    decreases p, 1
  {
    [Created(p.node, p.elem.createNode, p.elem.props), Attached(parentNode, p.node)]
      + BindingOpsAll(p.children, p.node)
  }

  function BindingOpsAll(ps: seq<PopulatedElement>, parentNode: Node): seq<HostOp>
    decreases ps, 0
  {
    if ps == [] then [] else BindingOpsAll(ps[..|ps| - 1], parentNode) + BindingOps(ps[|ps| - 1], parentNode)
  }

  /** `n` consecutive handles from `base`. */
  function Range(base: Node, n: nat): (r: seq<Node>)
    ensures |r| == n
  {
    seq(n, i requires 0 <= i < n => base + i)
  }

  /** The first render builds a populated tree of the element tree's shape,
      records each element's parent key, and binds the elements in pre-order
      to consecutive fresh handles, one handle per element. */
  lemma FirstGraphShape(e: Element, parentKey: Option<Key>, base: Node)
    ensures Mirrors(FirstGraph(e, parentKey, base), e)
    ensures RecordsParents(FirstGraph(e, parentKey, base), parentKey)
    ensures PopNodes(FirstGraph(e, parentKey, base)) == Range(base, Size(e))
  {
    FirstGraphMirrors(e, parentKey, base);
    FirstGraphNodes(e, parentKey, base);
  }

  lemma {:induction false} FirstGraphMirrors(e: Element, parentKey: Option<Key>, base: Node)
    ensures Mirrors(FirstGraph(e, parentKey, base), e)
    ensures RecordsParents(FirstGraph(e, parentKey, base), parentKey)
    decreases e, 1
  {
    FirstGraphAllMirrors(e.children, Some(e.key), base + 1);
  }

  lemma {:induction false} FirstGraphAllMirrors(es: seq<Element>, parentKey: Option<Key>, base: Node)
    ensures |FirstGraphAll(es, parentKey, base)| == |es|
    ensures forall i :: 0 <= i < |es| ==>
      Mirrors(FirstGraphAll(es, parentKey, base)[i], es[i])
      && RecordsParents(FirstGraphAll(es, parentKey, base)[i], parentKey)
    decreases es, 0
  {
    if es != [] {
      var init := es[..|es| - 1];
      var ps := FirstGraphAll(init, parentKey, base);
      var q := FirstGraph(es[|es| - 1], parentKey, base + SizeAll(init));
      FirstGraphAllMirrors(init, parentKey, base);
      FirstGraphMirrors(es[|es| - 1], parentKey, base + SizeAll(init));
      forall i | 0 <= i < |es|
        ensures Mirrors((ps + [q])[i], es[i]) && RecordsParents((ps + [q])[i], parentKey)
      {
        if i < |init| {
          assert es[i] == init[i] && (ps + [q])[i] == ps[i];
        }
      }
    }
  }

  lemma {:induction false} FirstGraphNodes(e: Element, parentKey: Option<Key>, base: Node)
    ensures PopNodes(FirstGraph(e, parentKey, base)) == Range(base, Size(e))
    decreases e, 1
  {
    FirstGraphAllNodes(e.children, Some(e.key), base + 1);
    RangeConcat(base, 1, SizeAll(e.children));
  }

  lemma {:induction false} FirstGraphAllNodes(es: seq<Element>, parentKey: Option<Key>, base: Node)
    ensures PopNodesAll(FirstGraphAll(es, parentKey, base)) == Range(base, SizeAll(es))
    decreases es, 0
  {
    if es != [] {
      var init := es[..|es| - 1];
      var ps := FirstGraphAll(init, parentKey, base);
      var q := FirstGraph(es[|es| - 1], parentKey, base + SizeAll(init));
      FirstGraphAllNodes(init, parentKey, base);
      FirstGraphNodes(es[|es| - 1], parentKey, base + SizeAll(init));
      PopNodesAllSnoc(ps, q);
      RangeConcat(base, SizeAll(init), Size(es[|es| - 1]));
    }
  }

  lemma PopNodesAllSnoc(ps: seq<PopulatedElement>, q: PopulatedElement)
    ensures PopNodesAll(ps + [q]) == PopNodesAll(ps) + PopNodes(q)
  {
    assert (ps + [q])[..|ps|] == ps;
  }

  lemma RangeConcat(base: Node, a: nat, b: nat)
    ensures Range(base, a) + Range(base + a, b) == Range(base, a + b)
  {
    var l, r := Range(base, a) + Range(base + a, b), Range(base, a + b);
    forall i | 0 <= i < a + b
      ensures l[i] == r[i]
    {
      if i >= a {
        assert l[i] == Range(base + a, b)[i - a];
      }
    }
  }

  /** The first render's host calls create every element's node once and attach
      the root under `parentNode` and every other node under its parent
      element's node. */
  lemma {:induction false} FirstRenderOpsBindTree(e: Element, parentKey: Option<Key>, parentNode: Node, base: Node)
    ensures FirstRenderOps(e, parentNode, base) == BindingOps(FirstGraph(e, parentKey, base), parentNode)
    decreases e, 1
  {
    FirstRenderOpsAllBindTree(e.children, Some(e.key), base, base + 1);
  }

  lemma {:induction false} FirstRenderOpsAllBindTree(es: seq<Element>, parentKey: Option<Key>, parentNode: Node, base: Node)
    ensures FirstRenderOpsAll(es, parentNode, base) == BindingOpsAll(FirstGraphAll(es, parentKey, base), parentNode)
    decreases es, 0
  {
    if es != [] {
      var init, last := es[..|es| - 1], es[|es| - 1];
      var ps := FirstGraphAll(init, parentKey, base);
      var q := FirstGraph(last, parentKey, base + SizeAll(init));
      assert FirstGraphAll(es, parentKey, base) == ps + [q];
      assert FirstRenderOpsAll(es, parentNode, base)
          == FirstRenderOpsAll(init, parentNode, base) + FirstRenderOps(last, parentNode, base + SizeAll(init));
      FirstRenderOpsAllBindTree(init, parentKey, parentNode, base);
      FirstRenderOpsBindTree(last, parentKey, parentNode, base + SizeAll(init));
      BindingOpsAllSnoc(ps, q, parentNode);
    }
  }

  lemma BindingOpsAllSnoc(ps: seq<PopulatedElement>, q: PopulatedElement, parentNode: Node)
    ensures BindingOpsAll(ps + [q], parentNode) == BindingOpsAll(ps, parentNode) + BindingOps(q, parentNode)
  {
    assert (ps + [q])[..|ps|] == ps;
  }
}
