/** `Renderer` (GReact.cs): reconciles each frame's element tree with the
    populated tree of the previous frame and updates the host scene graph to
    match, in five phases: updates, creations, moves, destructions, and the
    rebuilding of the populated tree. */
module Reconciler {
  import opened Wrappers
  import opened HostGraph
  import opened Elements
  import opened OrderedDicts
  import opened Diff
  import opened FirstRender

  /** The exception `Render` throws when two elements of a tree share a key. */
  datatype RenderError = DuplicateKey(key: Key)

  /** The first key of `s` that is in `seen` or occurs earlier in `s`: the key
      on which filling the new element dictionary stops. */
  function FirstRepeat(seen: seq<Key>, s: seq<Key>): Option<Key>
    decreases |s|
  {
    if s == [] then None
    else if s[0] in seen then Some(s[0])
    else FirstRepeat(seen + [s[0]], s[1..])
  }

  /** The outcome of filling the new element dictionary, already holding
      `seen`, with the keys `s`. */
  function DuplicateCheck(seen: seq<Key>, s: seq<Key>): Outcome<RenderError>
  {
    match FirstRepeat(seen, s)
    case None => Pass
    case Some(k) => Fail(DuplicateKey(k))
  }

  lemma {:induction false} FirstRepeatConcat(seen: seq<Key>, a: seq<Key>, b: seq<Key>)
    ensures FirstRepeat(seen, a + b) ==
      if FirstRepeat(seen, a).Some? then FirstRepeat(seen, a) else FirstRepeat(seen + a, b)
    decreases |a|
  {
    if a == [] {
      assert a + b == b && seen + a == seen;
    } else {
      assert (a + b)[0] == a[0] && (a + b)[1..] == a[1..] + b;
      FirstRepeatConcat(seen + [a[0]], a[1..], b);
      assert seen + [a[0]] + a[1..] == seen + a;
    }
  }

  /** The duplicate check fails exactly when the keys are not distinct, and
      the key it names occurs twice. */
  lemma {:induction false} FirstRepeatSpec(seen: seq<Key>, s: seq<Key>)
    requires NoDup(seen)
    ensures FirstRepeat(seen, s).None? <==> NoDup(seen + s)
    ensures FirstRepeat(seen, s).Some? ==>
      FirstRepeat(seen, s).value in s && multiset(seen + s)[FirstRepeat(seen, s).value] > 1
    decreases |s|
  {
    if s != [] {
      var ss := seen + s;
      assert multiset(ss) == multiset(seen) + multiset(s);
      if s[0] in seen {
        var i :| 0 <= i < |seen| && seen[i] == s[0];
        assert ss[i] == ss[|seen|];
      } else {
        assert seen + [s[0]] + s[1..] == ss;
        FirstRepeatSpec(seen + [s[0]], s[1..]);
      }
    }
  }

  /** All keys of a tree are present in the map. */
  ghost predicate KeysPresent(e: Element, m: map<Key, PopulatedElement>)
    decreases e
  {
    && e.key in m
    && forall i :: 0 <= i < |e.children| ==> KeysPresent(e.children[i], m)
  }

  /** The map holds every element of the tree under its key. */
  ghost predicate ElemsMatch(e: Element, m: map<Key, PopulatedElement>)
    decreases e
  {
    && e.key in m && m[e.key].elem == e
    && forall i :: 0 <= i < |e.children| ==> ElemsMatch(e.children[i], m)
  }

  /** Every populated element of the tree has the node and parent key the map
      holds for its key. */
  ghost predicate BoundTo(p: PopulatedElement, m: map<Key, PopulatedElement>)
    decreases p
  {
    && p.elem.key in m
    && p.node == m[p.elem.key].node && p.parentKey == m[p.elem.key].parentKey
    && forall i :: 0 <= i < |p.children| ==> BoundTo(p.children[i], m)
  }

  /** A map holding every entry of a pre-order under its key holds the whole
      tree. */
  lemma {:induction false} ElemsMatchFromFlatten(e: Element, parentKey: Option<Key>, m: map<Key, PopulatedElement>)
    requires forall x :: x in Flatten(e, parentKey) ==> x.elem.key in m && m[x.elem.key].elem == x.elem
    ensures KeysPresent(e, m) && ElemsMatch(e, m)
    decreases e
  {
    assert Flatten(e, parentKey)[0] == Entry(e, parentKey);
    forall i | 0 <= i < |e.children|
      ensures KeysPresent(e.children[i], m) && ElemsMatch(e.children[i], m)
    {
      FlattenAllContains(e.children, Some(e.key), i);
      ElemsMatchFromFlatten(e.children[i], Some(e.key), m);
    }
  }

  /** The old element dictionary of a populated tree: its elements in
      pre-order, the last one kept for a repeated key. */
  function OldElems(og: PopulatedElement): (d: DictState<PopulatedElement>)
    ensures WellFormed(d)
  {
    PutAllWellFormed(DictState([], map[]), PopPairs(og));
    PutAll(DictState([], map[]), PopPairs(og))
  }

  /** The pairs an old element and its first `i` subtrees contribute, in pre-order. */
  function OldPrefix(elem: PopulatedElement, i: nat): seq<(Key, PopulatedElement)>
    requires i <= |elem.children|
  {
    [(elem.elem.key, elem)] + PopPairsAll(elem.children[..i])
  }

  lemma OldPrefixEnds(d0: DictState<PopulatedElement>, elem: PopulatedElement)
    ensures PutAll(d0, OldPrefix(elem, 0)) == Put(d0, elem.elem.key, elem)
    ensures OldPrefix(elem, |elem.children|) == PopPairs(elem)
  {
    assert OldPrefix(elem, 0)[..0] == [];
    assert elem.children[..|elem.children|] == elem.children;
  }

  lemma FillOldStep(d0: DictState<PopulatedElement>, elem: PopulatedElement, i: nat)
    requires i < |elem.children|
    ensures PutAll(PutAll(d0, OldPrefix(elem, i)), PopPairs(elem.children[i])) == PutAll(d0, OldPrefix(elem, i + 1))
  {
    PutAllConcat(d0, OldPrefix(elem, i), PopPairs(elem.children[i]));
    assert elem.children[..i + 1][..i] == elem.children[..i];
    assert OldPrefix(elem, i) + PopPairs(elem.children[i]) == OldPrefix(elem, i + 1);
  }

  /** Host operations laid end to end. */
  function Concat(chunks: seq<seq<HostOp>>): seq<HostOp>
  {
    if chunks == [] then [] else Concat(chunks[..|chunks| - 1]) + chunks[|chunks| - 1]
  }

  /** What updating one element does to the host: with the old props type,
      `modifyNode` on the old node; with another, a new node, attached under
      `oldParent` (the old node's parent when the update began) if there is
      one, and the old node freed. */
  ghost predicate UpdateChunk(ops: seq<HostOp>, prev: PopulatedElement, e: Element, node: Node, firstFree: Node,
                              oldParent: Option<Node>)
  {
    if prev.elem.propsType == e.propsType then
      node == prev.node && ops == [Modified(prev.node, e.modifyNode, prev.elem.props, e.props)]
    else
      node >= firstFree
      && ops == [Created(node, e.createNode, e.props)] + ReattachOps(oldParent, node) + [Freed(prev.node)]
  }

  /** The parent the old node of the `i`-th update had when that update began:
      after `log0` and the first `i` chunks. */
  ghost function ParentBefore(log0: seq<HostOp>, chunks: seq<seq<HostOp>>, i: nat, prev: PopulatedElement): Option<Node>
    requires i <= |chunks|
  {
    ParentAfter(log0 + Concat(chunks[..i]), prev.node)
  }

  /** The populated element an update leaves in the new dictionary. */
  ghost predicate UpdateResult(ops: seq<HostOp>, prev: PopulatedElement, e: Element, p: PopulatedElement, firstFree: Node,
                               oldParent: Option<Node>)
  {
    && p.elem == e && p.children == [] && p.parentKey == None
    && UpdateChunk(ops, prev, e, p.node, firstFree, oldParent)
  }

  /** The first `i` updates are done: each has its chunk and its result. */
  ghost predicate UpdatedSoFar(uq: seq<Key>, i: nat, ov: map<Key, PopulatedElement>, nv: map<Key, Entry>,
                               log0: seq<HostOp>, chunks: seq<seq<HostOp>>, m: map<Key, PopulatedElement>, firstFree: Node)
  {
    && i <= |uq| && i <= |chunks|
    && (i > 0 ==>
      && UpdatedSoFar(uq, i - 1, ov, nv, log0, chunks, m, firstFree)
      && uq[i - 1] in ov && uq[i - 1] in nv && uq[i - 1] in m
      && UpdateResult(chunks[i - 1], ov[uq[i - 1]], nv[uq[i - 1]].elem, m[uq[i - 1]], firstFree,
                      ParentBefore(log0, chunks, i - 1, ov[uq[i - 1]])))
  }

  /** Done updates stay done while their chunks and results stay put. */
  lemma {:induction false} UpdatedSoFarFrame(uq: seq<Key>, i: nat, ov: map<Key, PopulatedElement>,
                                            nv: map<Key, Entry>, log0: seq<HostOp>, chunks: seq<seq<HostOp>>,
                                            chunks': seq<seq<HostOp>>, m: map<Key, PopulatedElement>,
                                            m': map<Key, PopulatedElement>, firstFree: Node)
    requires UpdatedSoFar(uq, i, ov, nv, log0, chunks, m, firstFree) && i <= |chunks'|
    requires chunks'[..i] == chunks[..i]
    requires forall j :: 0 <= j < i ==> uq[j] in m && uq[j] in m' && m'[uq[j]] == m[uq[j]]
    ensures UpdatedSoFar(uq, i, ov, nv, log0, chunks', m', firstFree)
  {
    if i > 0 {
      assert chunks'[..i - 1] == chunks'[..i][..i - 1] && chunks[..i - 1] == chunks[..i][..i - 1];
      assert chunks'[i - 1] == chunks'[..i][i - 1];
      UpdatedSoFarFrame(uq, i - 1, ov, nv, log0, chunks, chunks', m, m', firstFree);
    }
  }

  /** The done updates, one by one. */
  lemma {:induction false} UpdatedSoFarEach(uq: seq<Key>, i: nat, ov: map<Key, PopulatedElement>,
                                           nv: map<Key, Entry>, log0: seq<HostOp>, chunks: seq<seq<HostOp>>,
                                           m: map<Key, PopulatedElement>, firstFree: Node)
    requires UpdatedSoFar(uq, i, ov, nv, log0, chunks, m, firstFree)
    ensures forall j :: 0 <= j < i ==>
      uq[j] in ov && uq[j] in nv && uq[j] in m
      && UpdateResult(chunks[j], ov[uq[j]], nv[uq[j]].elem, m[uq[j]], firstFree, ParentBefore(log0, chunks, j, ov[uq[j]]))
  {
    if i > 0 {
      UpdatedSoFarEach(uq, i - 1, ov, nv, log0, chunks, m, firstFree);
    }
  }

  lemma UpdatedSoFarStep(uq: seq<Key>, i: nat, ov: map<Key, PopulatedElement>, nv: map<Key, Entry>,
                         log0: seq<HostOp>, chunks: seq<seq<HostOp>>, m: map<Key, PopulatedElement>, chunk: seq<HostOp>,
                         p: PopulatedElement, firstFree: Node)
    requires UpdatedSoFar(uq, i, ov, nv, log0, chunks, m, firstFree) && i == |chunks| && i < |uq| && uq[i] !in uq[..i]
    requires uq[i] in ov && uq[i] in nv
    requires UpdateResult(chunk, ov[uq[i]], nv[uq[i]].elem, p, firstFree, ParentAfter(log0 + Concat(chunks), ov[uq[i]].node))
    ensures UpdatedSoFar(uq, i + 1, ov, nv, log0, chunks + [chunk], m[uq[i] := p], firstFree)
  {
    var m' := m[uq[i] := p];
    UpdatedSoFarEach(uq, i, ov, nv, log0, chunks, m, firstFree);
    forall j | 0 <= j < i
      ensures uq[j] in m && uq[j] in m' && m'[uq[j]] == m[uq[j]]
    {
      assert uq[j] in uq[..i];
    }
    assert (chunks + [chunk])[..i] == chunks == chunks[..i];
    UpdatedSoFarFrame(uq, i, ov, nv, log0, chunks, chunks + [chunk], m, m', firstFree);
  }

  /** One more update, appended to the log and recorded in the dictionary. */
  lemma UpdateLoopStep(uq: seq<Key>, i: nat, ov: map<Key, PopulatedElement>, nv: map<Key, Entry>,
                       log0: seq<HostOp>, chunks: seq<seq<HostOp>>, m: map<Key, PopulatedElement>,
                       before: seq<HostOp>, after: seq<HostOp>, chunk: seq<HostOp>, p: PopulatedElement, firstFree: Node)
    requires UpdatedSoFar(uq, i, ov, nv, log0, chunks, m, firstFree) && i == |chunks| && i < |uq| && NoDup(uq)
    requires uq[i] in ov && uq[i] in nv
    requires before == log0 + Concat(chunks) && after == before + chunk
    requires UpdateResult(chunk, ov[uq[i]], nv[uq[i]].elem, p, firstFree, ParentAfter(before, ov[uq[i]].node))
    ensures after == log0 + Concat(chunks + [chunk])
    ensures UpdatedSoFar(uq, i + 1, ov, nv, log0, chunks + [chunk], m[uq[i] := p], firstFree)
  {
    NoDupFresh(uq, i);
    assert (chunks + [chunk])[..|chunks|] == chunks;
    UpdatedSoFarStep(uq, i, ov, nv, log0, chunks, m, chunk, p, firstFree);
  }

  /** The host operations `Element.Render` appends, read as one update. */
  lemma UpdateStep(before: seq<HostOp>, after: seq<HostOp>, prev: PopulatedElement, e: Element,
                   p: PopulatedElement, firstFree: Node, oldParent: Option<Node>)
    requires p.elem == e && p.children == [] && p.parentKey == None
    requires prev.elem.propsType == e.propsType ==>
      p.node == prev.node && after == before + [Modified(prev.node, e.modifyNode, prev.elem.props, e.props)]
    requires prev.elem.propsType != e.propsType ==>
      p.node >= firstFree
      && after == before + [Created(p.node, e.createNode, e.props)] + ReattachOps(oldParent, p.node) + [Freed(prev.node)]
    ensures |before| <= |after| && after[..|before|] == before
    ensures UpdateResult(after[|before|..], prev, e, p, firstFree, oldParent)
  {
    if prev.elem.propsType == e.propsType {
      assert after[|before|..] == [Modified(prev.node, e.modifyNode, prev.elem.props, e.props)];
    } else {
      assert after[|before|..] == [Created(p.node, e.createNode, e.props)] + ReattachOps(oldParent, p.node) + [Freed(prev.node)];
    }
  }

  /** The whole update phase, chunk by chunk, against the updated entries. */
  ghost predicate UpdatePhase(log0: seq<HostOp>, chunks: seq<seq<HostOp>>, ue: seq<Entry>, ov: map<Key, PopulatedElement>,
                              pop: map<Key, PopulatedElement>, firstFree: Node)
  {
    && |chunks| == |ue|
    && forall i :: 0 <= i < |ue| ==>
      && ue[i].elem.key in ov && ue[i].elem.key in pop
      && UpdateChunk(chunks[i], ov[ue[i].elem.key], ue[i].elem, pop[ue[i].elem.key].node, firstFree,
                     ParentBefore(log0, chunks, i, ov[ue[i].elem.key]))
  }

  /** The entry and, if it has one, its parent are in the dictionary. */
  ghost predicate Ready(x: Entry, m: map<Key, PopulatedElement>)
  {
    x.elem.key in m && (x.parentKey.Some? ==> x.parentKey.value in m)
  }

  /** The first `i` creations are done: `m` is `m0` plus their elements,
      each recorded as `CreatedAs` describes. */
  ghost predicate CreationsSoFar(cq: seq<Entry>, i: nat, m0: map<Key, PopulatedElement>,
                                 m: map<Key, PopulatedElement>, firstFree: Node)
    requires i <= |cq|
  {
    && m.Keys == m0.Keys + (set j | 0 <= j < i :: cq[j].elem.key)
    && (forall k :: k in m0 ==> k in m && m[k] == m0[k])
    && forall j :: 0 <= j < i ==> Ready(cq[j], m) && CreatedAs(m[cq[j].elem.key], cq[j], firstFree)
  }

  /** All creations done. */
  lemma CreationsComplete(cq: seq<Entry>, m0: map<Key, PopulatedElement>, m: map<Key, PopulatedElement>, firstFree: Node)
    requires CreationsSoFar(cq, |cq|, m0, m, firstFree)
    ensures CreationsDone(cq, m0, m, firstFree)
  {
    forall x | x in cq
      ensures x.elem.key in (set j | 0 <= j < |cq| :: cq[j].elem.key)
    {
      var j :| 0 <= j < |cq| && cq[j] == x;
    }
  }

  /** Before the `i`-th creation its key is absent and its parent present. */
  lemma CreationReady(cq: seq<Entry>, i: nat, keys0: seq<Key>, m0: map<Key, PopulatedElement>,
                      m: map<Key, PopulatedElement>, firstFree: Node)
    requires i < |cq| && NoDup(Keys(cq)) && CreationsSoFar(cq, i, m0, m, firstFree)
    requires cq[i].elem.key !in m0 && forall k :: k in keys0 ==> k in m0
    requires ParentReady(cq[i], keys0, cq[..i])
    ensures cq[i].elem.key !in m
    ensures cq[i].parentKey.Some? ==> cq[i].parentKey.value in m
    ensures forall j :: 0 <= j < i ==> cq[j].elem.key != cq[i].elem.key
  {
    forall j | 0 <= j < i
      ensures cq[j].elem.key != cq[i].elem.key
    {
      assert Keys(cq)[j] != Keys(cq)[i];
    }
    if cq[i].parentKey.Some? && cq[i].parentKey.value !in keys0 {
      var j :| 0 <= j < i && Keys(cq[..i])[j] == cq[i].parentKey.value;
      assert cq[j].elem.key in m;
    }
  }

  /** One more creation keeps what the earlier ones recorded. */
  lemma CreationKeepsEarlier(cq: seq<Entry>, i: nat, m: map<Key, PopulatedElement>, v: PopulatedElement, firstFree: Node)
    requires i < |cq|
    requires forall j :: 0 <= j < i ==> cq[j].elem.key != cq[i].elem.key
    requires forall j :: 0 <= j < i ==> Ready(cq[j], m) && CreatedAs(m[cq[j].elem.key], cq[j], firstFree)
    requires cq[i].parentKey.Some? ==> cq[i].parentKey.value in m
    requires CreatedAs(v, cq[i], firstFree)
    ensures forall j :: 0 <= j < i + 1 ==>
      Ready(cq[j], m[cq[i].elem.key := v]) && CreatedAs(m[cq[i].elem.key := v][cq[j].elem.key], cq[j], firstFree)
  {
  }

  /** One more creation: the new element joins the done ones, and its two host
      operations follow theirs. */
  lemma CreationStep(cq: seq<Entry>, i: nat, m0: map<Key, PopulatedElement>, m: map<Key, PopulatedElement>,
                     v: PopulatedElement, firstFree: Node, container: Node)
    requires i < |cq| && CreationsSoFar(cq, i, m0, m, firstFree)
    requires forall j :: 0 <= j < i ==> cq[j].elem.key != cq[i].elem.key
    requires cq[i].elem.key !in m && (cq[i].parentKey.Some? ==> cq[i].parentKey.value in m)
    requires CreatedAs(v, cq[i], firstFree)
    ensures CreationsSoFar(cq, i + 1, m0, m[cq[i].elem.key := v], firstFree)
    ensures CreationOps(cq[..i + 1], m[cq[i].elem.key := v], container)
      == CreationOps(cq[..i], m, container)
         + [Created(v.node, cq[i].elem.createNode, cq[i].elem.props),
            Attached(AttachTarget(cq[i].parentKey, m, container), v.node)]
  {
    CreationsSoFarStep(cq, i, m0, m, v, firstFree);
    CreationOpsStep(cq, i, m, v, container);
  }

  lemma CreationsSoFarStep(cq: seq<Entry>, i: nat, m0: map<Key, PopulatedElement>, m: map<Key, PopulatedElement>,
                           v: PopulatedElement, firstFree: Node)
    requires i < |cq| && CreationsSoFar(cq, i, m0, m, firstFree)
    requires forall j :: 0 <= j < i ==> cq[j].elem.key != cq[i].elem.key
    requires cq[i].elem.key !in m && (cq[i].parentKey.Some? ==> cq[i].parentKey.value in m)
    requires CreatedAs(v, cq[i], firstFree)
    ensures CreationsSoFar(cq, i + 1, m0, m[cq[i].elem.key := v], firstFree)
  {
    var k, m' := cq[i].elem.key, m[cq[i].elem.key := v];
    CreationKeepsEarlier(cq, i, m, v, firstFree);
    CreatedKeysSnoc(cq, i);
    assert m'.Keys == m.Keys + {k};
    forall k0 | k0 in m0 ensures k0 in m' && m'[k0] == m0[k0] {
      assert k0 in m;
    }
  }

  lemma CreatedKeysSnoc(cq: seq<Entry>, i: nat)
    requires i < |cq|
    ensures (set j | 0 <= j < i + 1 :: cq[j].elem.key) == (set j | 0 <= j < i :: cq[j].elem.key) + {cq[i].elem.key}
  {
    var done, done' := (set j | 0 <= j < i :: cq[j].elem.key), (set j | 0 <= j < i + 1 :: cq[j].elem.key);
    forall k0 | k0 in done' ensures k0 in done + {cq[i].elem.key} {
      var j :| 0 <= j < i + 1 && cq[j].elem.key == k0;
      if j < i { assert cq[j].elem.key in done; }
    }
  }

  /** One more creation appends its two host operations. */
  lemma CreationOpsStep(cq: seq<Entry>, i: nat, m: map<Key, PopulatedElement>, v: PopulatedElement, container: Node)
    requires i < |cq| && cq[i].elem.key !in m
    requires forall j :: 0 <= j < i ==> Ready(cq[j], m)
    requires cq[i].parentKey.Some? ==> cq[i].parentKey.value in m
    ensures CreationOps(cq[..i + 1], m[cq[i].elem.key := v], container)
      == CreationOps(cq[..i], m, container)
         + [Created(v.node, cq[i].elem.createNode, cq[i].elem.props),
            Attached(AttachTarget(cq[i].parentKey, m, container), v.node)]
  {
    assert cq[..i + 1][..i] == cq[..i];
    forall x | x in cq[..i]
      ensures x.elem.key in m && (x.parentKey.Some? ==> x.parentKey.value in m)
    {
      var j :| 0 <= j < i && cq[..i][j] == x;
      assert Ready(cq[j], m);
    }
    CreationOpsInsert(cq[..i], m, cq[i].elem.key, v, container);
  }

  /** One more move appends its host operation; moves never change nodes. */
  lemma MoveOpsStep(mq: seq<(Key, Option<Key>)>, i: nat, m: map<Key, PopulatedElement>, container: Node)
    requires i < |mq| && mq[i].0 in m
    ensures
      var m' := m[mq[i].0 := m[mq[i].0].(parentKey := mq[i].1)];
      MoveOps(mq[..i + 1], m', container)
        == MoveOps(mq[..i], m, container) + [Attached(AttachTarget(mq[i].1, m, container), m[mq[i].0].node)]
  {
    var m' := m[mq[i].0 := m[mq[i].0].(parentKey := mq[i].1)];
    assert mq[..i + 1][..i] == mq[..i];
    assert SameNodes(m, m');
    MoveOpsSameNodes(mq[..i], m, m', container);
  }

  /** The populated element a creation leaves in the new dictionary. */
  ghost predicate CreatedAs(p: PopulatedElement, x: Entry, firstFree: Node)
  {
    p == PopulatedElement(x.elem, p.node, [], x.parentKey) && p.node >= firstFree
  }

  /** The node a created or moved element is attached under: its parent
      element's node, or the container for the root. */
  function AttachTarget(parentKey: Option<Key>, pop: map<Key, PopulatedElement>, container: Node): Node
  {
    if parentKey.Some? && parentKey.value in pop then pop[parentKey.value].node else container
  }

  /** The host operations of the creation phase. */
  function CreationOps(cq: seq<Entry>, pop: map<Key, PopulatedElement>, container: Node): seq<HostOp>
  {
    if cq == [] then []
    else
      var x := cq[|cq| - 1];
      CreationOps(cq[..|cq| - 1], pop, container)
        + (if x.elem.key in pop
           then [Created(pop[x.elem.key].node, x.elem.createNode, x.elem.props),
                 Attached(AttachTarget(x.parentKey, pop, container), pop[x.elem.key].node)]
           else [])
  }

  /** The host operations of the move phase. */
  function MoveOps(mq: seq<(Key, Option<Key>)>, pop: map<Key, PopulatedElement>, container: Node): seq<HostOp>
  {
    if mq == [] then []
    else
      var (src, dst) := mq[|mq| - 1];
      MoveOps(mq[..|mq| - 1], pop, container)
        + (if src in pop then [Attached(AttachTarget(dst, pop, container), pop[src].node)] else [])
  }

  /** The host operations of the destruction phase. */
  function FreeOps(dq: seq<Node>): seq<HostOp>
  {
    seq(|dq|, i requires 0 <= i < |dq| => Freed(dq[i]))
  }

  /** The parent key the last move of `k` gives it, or `dflt` if it is not moved. */
  function MovedParent(mq: seq<(Key, Option<Key>)>, k: Key, dflt: Option<Key>): Option<Key>
  {
    if mq == [] then dflt
    else if mq[|mq| - 1].0 == k then mq[|mq| - 1].1
    else MovedParent(mq[..|mq| - 1], k, dflt)
  }

  /** The new populated dictionary after the moves. */
  function ApplyMoves(pop: map<Key, PopulatedElement>, mq: seq<(Key, Option<Key>)>): (r: map<Key, PopulatedElement>)
    ensures r.Keys == pop.Keys
  {
    if mq == [] then pop
    else
      var r := ApplyMoves(pop, mq[..|mq| - 1]);
      var (src, dst) := mq[|mq| - 1];
      if src in r then r[src := r[src].(parentKey := dst)] else r
  }

  /** The moves give each moved key the parent key of its last move, keep its
      element, node and children, and change nothing else. */
  lemma {:induction false} ApplyMovesClosedForm(pop: map<Key, PopulatedElement>, mq: seq<(Key, Option<Key>)>)
    ensures forall k :: k in pop ==>
      ApplyMoves(pop, mq)[k] == pop[k].(parentKey := MovedParent(mq, k, pop[k].parentKey))
  {
    if mq != [] {
      ApplyMovesClosedForm(pop, mq[..|mq| - 1]);
    }
  }

  /** One more move updates the moved key's parent key. */
  lemma ApplyMovesStep(pop: map<Key, PopulatedElement>, mq: seq<(Key, Option<Key>)>, i: nat)
    requires i < |mq| && mq[i].0 in pop
    ensures
      var r := ApplyMoves(pop, mq[..i]);
      ApplyMoves(pop, mq[..i + 1]) == r[mq[i].0 := r[mq[i].0].(parentKey := mq[i].1)]
  {
    assert mq[..i + 1][..i] == mq[..i];
  }

  /** A log that grew by `extra` after `ops`. */
  lemma LogAppend(start: seq<HostOp>, ops: seq<HostOp>, extra: seq<HostOp>, after: seq<HostOp>)
    requires after == start + ops + extra
    ensures after == start + (ops + extra)
  {
  }

  /** One more child in the first render: its subtree's handles, host calls
      and populated tree follow those of the children before it. */
  lemma FirstStep(es: seq<Element>, i: nat, parentNode: Node, parentKey: Option<Key>, base: Node,
                  log0: seq<HostOp>, logMid: seq<HostOp>, logNext: seq<HostOp>,
                  built: seq<PopulatedElement>, child: PopulatedElement)
    requires i < |es|
    requires logMid == log0 + FirstRenderOpsAll(es[..i], parentNode, base)
    requires logNext == logMid + FirstRenderOps(es[i], parentNode, base + SizeAll(es[..i]))
    requires built == FirstGraphAll(es[..i], parentKey, base)
    requires child == FirstGraph(es[i], parentKey, base + SizeAll(es[..i]))
    ensures SizeAll(es[..i + 1]) == SizeAll(es[..i]) + Size(es[i])
    ensures logNext == log0 + FirstRenderOpsAll(es[..i + 1], parentNode, base)
    ensures built + [child] == FirstGraphAll(es[..i + 1], parentKey, base)
  {
    FirstPrefix(es, i, parentNode, parentKey, base);
    LogAppend(log0, FirstRenderOpsAll(es[..i], parentNode, base),
              FirstRenderOps(es[i], parentNode, base + SizeAll(es[..i])), logNext);
  }

  lemma FirstPrefix(es: seq<Element>, i: nat, parentNode: Node, parentKey: Option<Key>, base: Node)
    requires i < |es|
    ensures SizeAll(es[..i + 1]) == SizeAll(es[..i]) + Size(es[i])
    ensures FirstRenderOpsAll(es[..i + 1], parentNode, base)
         == FirstRenderOpsAll(es[..i], parentNode, base) + FirstRenderOps(es[i], parentNode, base + SizeAll(es[..i]))
    ensures FirstGraphAll(es[..i + 1], parentKey, base)
         == FirstGraphAll(es[..i], parentKey, base) + [FirstGraph(es[i], parentKey, base + SizeAll(es[..i]))]
  {
    assert es[..i + 1][..i] == es[..i];
  }

  /** A key moved only to one parent ends with that parent. */
  lemma {:induction false} MovedParentIs(mq: seq<(Key, Option<Key>)>, k: Key, dflt: Option<Key>, v: Option<Key>)
    requires forall m :: m in mq && m.0 == k ==> m.1 == v
    ensures MovedParent(mq, k, dflt) == if (k, v) in mq then v else dflt
  {
    if mq != [] {
      var init := mq[..|mq| - 1];
      assert mq == init + [mq[|mq| - 1]];
      MovedParentIs(init, k, dflt, v);
    }
  }

  /** Two dictionaries with the same keys and nodes. */
  ghost predicate SameNodes(m1: map<Key, PopulatedElement>, m2: map<Key, PopulatedElement>)
  {
    m1.Keys == m2.Keys && forall k :: k in m1 ==> m1[k].node == m2[k].node
  }

  lemma {:induction false} CreationOpsSameNodes(cq: seq<Entry>, m1: map<Key, PopulatedElement>,
                                               m2: map<Key, PopulatedElement>, container: Node)
    requires SameNodes(m1, m2)
    ensures CreationOps(cq, m1, container) == CreationOps(cq, m2, container)
  {
    if cq != [] {
      CreationOpsSameNodes(cq[..|cq| - 1], m1, m2, container);
    }
  }

  lemma {:induction false} MoveOpsSameNodes(mq: seq<(Key, Option<Key>)>, m1: map<Key, PopulatedElement>,
                                           m2: map<Key, PopulatedElement>, container: Node)
    requires SameNodes(m1, m2)
    ensures MoveOps(mq, m1, container) == MoveOps(mq, m2, container)
  {
    if mq != [] {
      MoveOpsSameNodes(mq[..|mq| - 1], m1, m2, container);
    }
  }

  /** Adding a key the creations so far neither create nor attach under
      leaves their operations as they were. */
  lemma {:induction false} CreationOpsInsert(cq: seq<Entry>, m: map<Key, PopulatedElement>, k: Key,
                                            v: PopulatedElement, container: Node)
    requires k !in m
    requires forall x :: x in cq ==> x.elem.key in m && (x.parentKey.Some? ==> x.parentKey.value in m)
    ensures CreationOps(cq, m[k := v], container) == CreationOps(cq, m, container)
  {
    if cq != [] {
      assert cq[|cq| - 1] in cq;
      CreationOpsInsert(cq[..|cq| - 1], m, k, v, container);
    }
  }

  /** What the render leaves for each new entry in the new populated
      dictionary: the new element with no children, the parent key that
      `RecordedParentKey` gives, and the old node when the key existed with
      the same props type, otherwise a firstFree node. */
  ghost predicate PopulatedAs(p: PopulatedElement, x: Entry, ov: map<Key, PopulatedElement>, firstFree: Node)
  {
    && p.elem == x.elem && p.children == []
    && p.parentKey == RecordedParentKey(ov, x)
    && if x.elem.key in ov && ov[x.elem.key].elem.propsType == x.elem.propsType
       then p.node == ov[x.elem.key].node
       else p.node >= firstFree
  }

  /** The entries of a dictionary filled from a pre-order sit under their own keys. */
  lemma DictOfEntries(d: DictState<Entry>, ne: seq<Entry>)
    requires WellFormed(d) && d.keys == Keys(ne) && ValuesOf(d) == ne
    ensures forall k :: k in d.vals ==> d.vals[k].elem.key == k
    ensures forall x :: x in ne ==> x.elem.key in d.vals && d.vals[x.elem.key] == x
  {
    forall k | k in d.vals
      ensures d.vals[k].elem.key == k
    {
      var i :| 0 <= i < |d.keys| && d.keys[i] == k;
      assert ValuesOf(d)[i] == d.vals[k];
    }
    forall x | x in ne
      ensures x.elem.key in d.vals && d.vals[x.elem.key] == x
    {
      var i :| 0 <= i < |ne| && ne[i] == x;
      assert d.keys[i] == x.elem.key;
      assert ValuesOf(d)[i] == d.vals[d.keys[i]];
    }
  }

  /** The ghost record of a re-render: the host operations of each phase and
      the final new populated dictionary. */
  datatype RenderTrace = RenderTrace(updates: seq<seq<HostOp>>, creations: seq<HostOp>,
                                     moves: seq<HostOp>, frees: seq<HostOp>,
                                     populated: map<Key, PopulatedElement>)

  class Renderer {
    /** The populated tree of the last render, if any. */
    var oldGraph: Option<PopulatedElement>

    constructor ()
      ensures oldGraph == None
    {
      oldGraph := None;
    }

    /** `Renderer.Render`: the first call builds the whole tree under
        `parent`; later calls fail on a repeated key without touching the
        host, and otherwise update, create, move and free host nodes so that
        the host follows the new tree, and keep the new populated tree. */
    method Render(host: Host, parent: Node, newGraph: Element) returns (r: Outcome<RenderError>, ghost trace: RenderTrace)
      requires host.Valid()
      modifies this, host
      ensures host.Valid()
      ensures old(oldGraph).None? ==>
        && r.Pass?
        && host.next == old(host.next) + Size(newGraph)
        && host.log == old(host.log) + FirstRenderOps(newGraph, parent, old(host.next))
        && oldGraph == Some(FirstGraph(newGraph, None, old(host.next)))
      ensures old(oldGraph).Some? ==> r == DuplicateCheck([], Keys(Flatten(newGraph, None)))
      ensures old(oldGraph).Some? && r.Fail? ==> oldGraph == old(oldGraph) && unchanged(host)
      ensures old(oldGraph).Some? && r.Pass? ==>
        && Rerendered(old(oldGraph).value, newGraph, parent, old(host.log), old(host.next), host.log, trace)
        && KeysPresent(newGraph, trace.populated)
        && oldGraph == Some(PopulateGraph(newGraph, trace.populated))
        && Mirrors(oldGraph.value, newGraph) && BoundTo(oldGraph.value, trace.populated)
    {
      if oldGraph.None? {
        var graph := BuildFirstTimeGraph(host, newGraph, parent, None);
        oldGraph := Some(graph);
        r, trace := Pass, RenderTrace([], [], [], [], map[]);
      } else {
        r, trace := Rerender(host, parent, newGraph);
      }
    }

    /** A render after the first: fails on a repeated key without touching the
        host, and otherwise reconciles the host with the new tree and keeps
        the new populated tree. */
    method Rerender(host: Host, parent: Node, newGraph: Element) returns (r: Outcome<RenderError>, ghost trace: RenderTrace)
      requires host.Valid() && oldGraph.Some?
      modifies this, host
      ensures host.Valid()
      ensures r == DuplicateCheck([], Keys(Flatten(newGraph, None)))
      ensures r.Fail? ==> oldGraph == old(oldGraph) && unchanged(host)
      ensures r.Pass? ==>
        && Rerendered(old(oldGraph).value, newGraph, parent, old(host.log), old(host.next), host.log, trace)
        && KeysPresent(newGraph, trace.populated)
        && oldGraph == Some(PopulateGraph(newGraph, trace.populated))
        && Mirrors(oldGraph.value, newGraph) && BoundTo(oldGraph.value, trace.populated)
    {
      trace := RenderTrace([], [], [], [], map[]);
      var oldElemDict := new OrderedDict<PopulatedElement>();
      FillOldElemDict(oldElemDict, oldGraph.value);
      var newElemDict := new OrderedDict<Entry>();
      r := FillNewElemDict(newElemDict, newGraph, None);
      if r.Fail? {
        return;
      }
      trace := ReconcileTrees(host, parent, newGraph, oldElemDict, newElemDict);
    }

    /** Reconciles the host with the new tree once both element dictionaries
        are filled without a repeated key, and keeps the new populated tree. */
    method ReconcileTrees(host: Host, parent: Node, newGraph: Element,
                          oldElemDict: OrderedDict<PopulatedElement>, newElemDict: OrderedDict<Entry>)
      returns (ghost trace: RenderTrace)
      requires host.Valid() && oldElemDict.Valid() && newElemDict.Valid() && oldGraph.Some?
      requires oldElemDict.State() == PutAll(DictState([], map[]), PopPairs(oldGraph.value))
      requires FirstRepeat([], Keys(Flatten(newGraph, None))) == None
      requires newElemDict.State() == PutAll(DictState([], map[]), EntryPairs(Flatten(newGraph, None)))
      modifies this, host
      ensures host.Valid()
      ensures Rerendered(old(oldGraph).value, newGraph, parent, old(host.log), old(host.next), host.log, trace)
      ensures KeysPresent(newGraph, trace.populated)
      ensures oldGraph == Some(PopulateGraph(newGraph, trace.populated))
      ensures Mirrors(oldGraph.value, newGraph) && BoundTo(oldGraph.value, trace.populated)
    {
      ghost var ne := Flatten(newGraph, None);
      NewDictReady(ne, newElemDict.State());
      DictOfEntries(newElemDict.State(), ne);
      FlattenParentsBefore(newGraph, None);
      var newPopElemDict;
      newPopElemDict, trace := Reconcile(host, parent, oldElemDict, newElemDict, ne, OldElems(oldGraph.value));
      ElemsMatchFromFlatten(newGraph, None, newPopElemDict.vals);
      oldGraph := Some(PopulateGraph(newGraph, newPopElemDict.vals));
    }

    /** The phases of a re-render, from the filled old and new element
        dictionaries: build the queues, then update, create, move and free. */
    method Reconcile(host: Host, parent: Node, oldElemDict: OrderedDict<PopulatedElement>,
                     newElemDict: OrderedDict<Entry>, ghost ne: seq<Entry>, ghost od: DictState<PopulatedElement>)
      returns (newPopElemDict: OrderedDict<PopulatedElement>, ghost trace: RenderTrace)
      requires host.Valid() && oldElemDict.Valid() && newElemDict.Valid() && oldElemDict.State() == od
      requires NoDup(Keys(ne)) && ParentsBefore(ne, None)
      requires newElemDict.keys == Keys(ne) && ValuesOf(newElemDict.State()) == ne
      requires forall k :: k in newElemDict.vals ==> newElemDict.vals[k].elem.key == k
      requires forall x :: x in ne ==> x.elem.key in newElemDict.vals && newElemDict.vals[x.elem.key] == x
      modifies host
      ensures fresh(newPopElemDict) && host.Valid()
      ensures newPopElemDict.vals == trace.populated
      ensures PhasesDone(ne, od, parent, old(host.log), old(host.next), host.log, trace)
    {
      ghost var ov, nv := od.vals, newElemDict.vals;
      var creationQueue, moveQueue, updateQueue := BuildQueues(oldElemDict, newElemDict);
      var destructionQueue := BuildDestructionQueue(oldElemDict, newElemDict);
      assert updateQueue == UpdateQueue(ne, ov) && creationQueue == CreationQueue(ne, ov);
      assert moveQueue == MoveQueue(ne, ov) && destructionQueue == DestructionQueue(od.keys, ov, Keys(ne));
      PhasesReady(ne, ov);
      ghost var updates, creations, pop1, next1;
      newPopElemDict, updates, creations, pop1, next1 :=
        UpdateAndCreate(host, parent, updateQueue, creationQueue, oldElemDict, newElemDict);
      ghost var pop2 := newPopElemDict.vals;
      ghost var moves := MoveAndDestroy(host, parent, moveQueue, destructionQueue, newPopElemDict);
      trace := RenderTrace(updates, creations, moves, FreeOps(destructionQueue), newPopElemDict.vals);
      PhasesCompose(ne, od, nv, parent, old(host.next), next1, old(host.log), host.log, trace, pop1, pop2);
    }

    /** The update phase followed by the creation phase, into a fresh new
        populated dictionary. */
    method UpdateAndCreate(host: Host, parent: Node, updateQueue: seq<Key>, creationQueue: seq<Entry>,
                           oldElemDict: OrderedDict<PopulatedElement>, newElemDict: OrderedDict<Entry>)
      returns (newPopElemDict: OrderedDict<PopulatedElement>, ghost updates: seq<seq<HostOp>>,
               ghost creations: seq<HostOp>, ghost pop1: map<Key, PopulatedElement>, ghost next1: Node)
      requires host.Valid() && NoDup(updateQueue) && NoDup(Keys(creationQueue))
      requires forall k :: k in updateQueue ==> k in oldElemDict.vals && k in newElemDict.vals
      requires forall x :: x in creationQueue ==> x.elem.key !in updateQueue
      requires forall i :: 0 <= i < |creationQueue| ==>
        ParentReady(creationQueue[i], updateQueue, creationQueue[..i])
      modifies host
      ensures fresh(newPopElemDict) && newPopElemDict.Valid() && host.Valid() && next1 >= old(host.next)
      ensures host.log == old(host.log) + Concat(updates) + creations
      ensures UpdatesDone(updateQueue, oldElemDict.vals, newElemDict.vals, old(host.log), updates, pop1, old(host.next))
      ensures CreationsDone(creationQueue, pop1, newPopElemDict.vals, next1)
      ensures creations == CreationOps(creationQueue, newPopElemDict.vals, parent)
    {
      newPopElemDict := new OrderedDict<PopulatedElement>();
      updates := ExecuteUpdates(host, updateQueue, oldElemDict, newElemDict, newPopElemDict);
      pop1, next1 := newPopElemDict.vals, host.next;
      KeySet(newPopElemDict.State());
      UpdatedSoFarEach(updateQueue, |updateQueue|, oldElemDict.vals, newElemDict.vals, old(host.log), updates, pop1, old(host.next));
      creations := ExecuteCreations(host, parent, creationQueue, newPopElemDict);
    }

    /** The first render of a tree: every element rendered with no previous
        element, attached under `parentNode` (the root) or under its parent's
        node, and recorded with its parent's key. */
    method BuildFirstTimeGraph(host: Host, elem: Element, parentNode: Node, parentKey: Option<Key>)
      returns (r: PopulatedElement)
      requires host.Valid()
      modifies host
      ensures host.Valid()
      ensures host.next == old(host.next) + Size(elem)
      ensures host.log == old(host.log) + FirstRenderOps(elem, parentNode, old(host.next))
      ensures r == FirstGraph(elem, parentKey, old(host.next))
      decreases elem, 1
    {
      ghost var base := host.next;
      var newElem := elem.Render(host, None);
      host.AddChild(parentNode, newElem.node);
      newElem := newElem.(parentKey := parentKey);
      ghost var top := [Created(base, elem.createNode, elem.props), Attached(parentNode, base)];
      SnocSnoc(old(host.log), top[0], top[1]);
      var children := BuildChildren(host, elem, newElem.node);
      LogAppend(old(host.log), top, FirstRenderOpsAll(elem.children, base, base + 1), host.log);
      r := newElem.(children := children);
    }

    /** The first render of an element's children, in order, under the
        element's node `node`. */
    method BuildChildren(host: Host, elem: Element, node: Node) returns (children: seq<PopulatedElement>)
      requires host.Valid()
      modifies host
      ensures host.Valid()
      ensures host.next == old(host.next) + SizeAll(elem.children)
      ensures host.log == old(host.log) + FirstRenderOpsAll(elem.children, node, old(host.next))
      ensures children == FirstGraphAll(elem.children, Some(elem.key), old(host.next))
      decreases elem, 0
    {
      children := [];
      for i := 0 to |elem.children|
        invariant host.Valid()
        invariant host.next == old(host.next) + SizeAll(elem.children[..i])
        invariant host.log == old(host.log) + FirstRenderOpsAll(elem.children[..i], node, old(host.next))
        invariant children == FirstGraphAll(elem.children[..i], Some(elem.key), old(host.next))
      {
        ghost var logMid := host.log;
        var child := BuildFirstTimeGraph(host, elem.children[i], node, Some(elem.key));
        FirstStep(elem.children, i, node, Some(elem.key), old(host.next), old(host.log), logMid, host.log, children, child);
        children := children + [child];
      }
      assert elem.children[..|elem.children|] == elem.children;
    }

    /** Records every populated element of the old tree under its key, in
        pre-order; a repeated key keeps its first position and its last value. */
    method FillOldElemDict(dict: OrderedDict<PopulatedElement>, elem: PopulatedElement)
      requires dict.Valid()
      modifies dict
      ensures dict.Valid()
      ensures dict.State() == PutAll(old(dict.State()), PopPairs(elem))
      decreases elem
    {
      ghost var d0 := dict.State();
      dict.Set(elem.elem.key, elem);
      OldPrefixEnds(d0, elem);
      for i := 0 to |elem.children|
        invariant dict.Valid()
        invariant dict.State() == PutAll(d0, OldPrefix(elem, i))
      {
        FillOldElemDict(dict, elem.children[i]);
        FillOldStep(d0, elem, i);
      }
    }

    /** Records every element of the new tree with its parent's key, in
        pre-order, and fails on the first key already recorded. */
    method FillNewElemDict(dict: OrderedDict<Entry>, elem: Element, parentKey: Option<Key>)
      returns (r: Outcome<RenderError>)
      requires dict.Valid()
      modifies dict
      ensures dict.Valid()
      ensures r == DuplicateCheck(old(dict.keys), Keys(Flatten(elem, parentKey)))
      ensures r.Pass? ==> dict.State() == PutAll(old(dict.State()), EntryPairs(Flatten(elem, parentKey)))
      decreases elem
    {
      ghost var d0 := dict.State();
      if dict.ContainsKey(elem.key) {
        assert Keys(Flatten(elem, parentKey))[0] == elem.key;
        return Fail(DuplicateKey(elem.key));
      }
      dict.Set(elem.key, Entry(elem, parentKey));
      ghost var done := [Entry(elem, parentKey)];
      assert elem.children[..0] == [];
      assert EntryPairs(done)[..0] == [];
      assert FirstRepeat(d0.keys, Keys(done)) == None by {
        assert Keys(done)[1..] == [];
      }
      for i := 0 to |elem.children|
        invariant dict.Valid()
        invariant done == [Entry(elem, parentKey)] + FlattenAll(elem.children[..i], Some(elem.key))
        invariant FirstRepeat(d0.keys, Keys(done)) == None
        invariant dict.State() == PutAll(d0, EntryPairs(done))
      {
        ghost var sub := Flatten(elem.children[i], Some(elem.key));
        ChildStep(elem, parentKey, i);
        FillStep(d0, done, sub, FlattenAll(elem.children[i + 1..], Some(elem.key)));
        r := FillNewElemDict(dict, elem.children[i], Some(elem.key));
        if r.Fail? {
          return;
        }
        done := done + sub;
      }
      assert elem.children[..|elem.children|] == elem.children;
      r := Pass;
    }

    /** Sorts the new elements, in pre-order: a key of the old tree is updated,
        and also moved when its recorded parent key differs; any other key is
        created. */
    method BuildQueues(oldDict: OrderedDict<PopulatedElement>, newDict: OrderedDict<Entry>)
      returns (creationQueue: seq<Entry>, moveQueue: seq<(Key, Option<Key>)>, updateQueue: seq<Key>)
      requires newDict.Valid()
      requires forall k :: k in newDict.vals ==> newDict.vals[k].elem.key == k
      ensures updateQueue == UpdateQueue(ValuesOf(newDict.State()), oldDict.vals)
      ensures creationQueue == CreationQueue(ValuesOf(newDict.State()), oldDict.vals)
      ensures moveQueue == MoveQueue(ValuesOf(newDict.State()), oldDict.vals)
    {
      ghost var ne := ValuesOf(newDict.State());
      creationQueue, moveQueue, updateQueue := [], [], [];
      for i := 0 to |newDict.keys|
        invariant updateQueue == UpdateQueue(ne[..i], oldDict.vals)
        invariant creationQueue == CreationQueue(ne[..i], oldDict.vals)
        invariant moveQueue == MoveQueue(ne[..i], oldDict.vals)
      {
        var key := newDict.keys[i];
        var entry := newDict.vals[key];
        assert ne[..i + 1][..i] == ne[..i] && ne[..i + 1][i] == entry;
        ghost var ue := UpdatedEntries(ne[..i], oldDict.vals);
        if oldDict.ContainsKey(key) {
          var oldElem := oldDict.vals[key];
          if oldElem.parentKey != entry.parentKey {
            moveQueue := moveQueue + [(entry.elem.key, entry.parentKey)];
          }
          assert Keys(ue + [entry]) == Keys(ue) + [entry.elem.key];
          updateQueue := updateQueue + [entry.elem.key];
        } else {
          assert ue + [] == ue;
          creationQueue := creationQueue + [entry];
        }
      }
      assert ne[..|newDict.keys|] == ne;
    }

    /** The nodes of the old keys the new tree lacks, in old order. */
    method BuildDestructionQueue(oldDict: OrderedDict<PopulatedElement>, newDict: OrderedDict<Entry>)
      returns (destructionQueue: seq<Node>)
      requires oldDict.Valid() && newDict.Valid()
      ensures destructionQueue == DestructionQueue(oldDict.keys, oldDict.vals, newDict.keys)
    {
      destructionQueue := [];
      for i := 0 to |oldDict.keys|
        invariant destructionQueue == DestructionQueue(oldDict.keys[..i], oldDict.vals, newDict.keys)
      {
        var key := oldDict.keys[i];
        assert oldDict.keys[..i + 1][..i] == oldDict.keys[..i];
        if !newDict.ContainsKey(key) {
          destructionQueue := destructionQueue + [oldDict.vals[key].node];
        }
      }
      assert oldDict.keys[..|oldDict.keys|] == oldDict.keys;
    }

    /** Renders each updated element against its old populated element and
        records the result, which has no parent key, in the new populated
        dictionary. */
    method ExecuteUpdates(host: Host, updateQueue: seq<Key>, oldDict: OrderedDict<PopulatedElement>,
                          newDict: OrderedDict<Entry>, newPopElemDict: OrderedDict<PopulatedElement>)
      returns (ghost chunks: seq<seq<HostOp>>)
      requires host.Valid() && newPopElemDict.Valid() && newPopElemDict.keys == []
      requires newPopElemDict != oldDict && NoDup(updateQueue)
      requires forall k :: k in updateQueue ==> k in oldDict.vals && k in newDict.vals
      modifies host, newPopElemDict
      ensures host.Valid() && newPopElemDict.Valid() && host.next >= old(host.next)
      ensures newPopElemDict.keys == updateQueue
      ensures |chunks| == |updateQueue| && host.log == old(host.log) + Concat(chunks)
      ensures UpdatedSoFar(updateQueue, |updateQueue|, oldDict.vals, newDict.vals, old(host.log), chunks,
                           newPopElemDict.vals, old(host.next))
    {
      var ov, nv := oldDict.vals, newDict.vals;
      chunks := [];
      for i := 0 to |updateQueue|
        invariant host.Valid() && newPopElemDict.Valid() && host.next >= old(host.next)
        invariant newPopElemDict.keys == updateQueue[..i]
        invariant |chunks| == i && host.log == old(host.log) + Concat(chunks)
        invariant UpdatedSoFar(updateQueue, i, ov, nv, old(host.log), chunks, newPopElemDict.vals, old(host.next))
      {
        chunks := UpdateNext(host, updateQueue, i, ov, nv, old(host.log), chunks, newPopElemDict, old(host.next));
      }
      assert updateQueue[..|updateQueue|] == updateQueue;
    }

    /** The update loop's body: updates the `i`-th queued key, keeping the
        loop's invariant. */
    method UpdateNext(host: Host, updateQueue: seq<Key>, i: nat, ov: map<Key, PopulatedElement>, nv: map<Key, Entry>,
                      ghost log0: seq<HostOp>, ghost chunks: seq<seq<HostOp>>,
                      newPopElemDict: OrderedDict<PopulatedElement>, ghost firstFree: Node)
      returns (ghost chunks': seq<seq<HostOp>>)
      requires host.Valid() && newPopElemDict.Valid() && firstFree <= host.next
      requires i < |updateQueue| && NoDup(updateQueue) && newPopElemDict.keys == updateQueue[..i]
      requires updateQueue[i] in ov && updateQueue[i] in nv
      requires |chunks| == i && host.log == log0 + Concat(chunks)
      requires UpdatedSoFar(updateQueue, i, ov, nv, log0, chunks, newPopElemDict.vals, firstFree)
      modifies host, newPopElemDict
      ensures host.Valid() && newPopElemDict.Valid() && host.next >= old(host.next)
      ensures newPopElemDict.keys == updateQueue[..i + 1]
      ensures |chunks'| == i + 1 && host.log == log0 + Concat(chunks')
      ensures UpdatedSoFar(updateQueue, i + 1, ov, nv, log0, chunks', newPopElemDict.vals, firstFree)
    {
      var key := updateQueue[i];
      NoDupFresh(updateQueue, i);
      ghost var before, m := host.log, newPopElemDict.vals;
      ghost var chunk, updated := UpdateElement(host, key, ov[key], nv[key].elem, newPopElemDict, firstFree);
      UpdateLoopStep(updateQueue, i, ov, nv, log0, chunks, m, before, host.log, chunk, updated, firstFree);
      chunks' := chunks + [chunk];
      TakeNext(updateQueue, i);
    }

    /** One step of the update phase: renders the new element against its old
        populated element and records the result under its key. */
    method UpdateElement(host: Host, key: Key, oldElem: PopulatedElement, newElem: Element,
                         newPopElemDict: OrderedDict<PopulatedElement>, ghost firstFree: Node)
      returns (ghost chunk: seq<HostOp>, ghost updated: PopulatedElement)
      requires host.Valid() && newPopElemDict.Valid() && firstFree <= host.next
      requires key !in newPopElemDict.keys
      modifies host, newPopElemDict
      ensures host.Valid() && newPopElemDict.Valid() && host.next >= old(host.next)
      ensures host.log == old(host.log) + chunk
      ensures newPopElemDict.keys == old(newPopElemDict.keys) + [key]
      ensures newPopElemDict.vals == old(newPopElemDict.vals)[key := updated]
      ensures UpdateResult(chunk, oldElem, newElem, updated, firstFree, ParentAfter(old(host.log), oldElem.node))
    {
      ghost var before := host.log;
      ghost var oldParent := host.GetParent(oldElem.node);
      var popElem := newElem.Render(host, Some(oldElem));
      newPopElemDict.Set(key, popElem);
      chunk, updated := host.log[|before|..], popElem;
      UpdateStep(before, host.log, oldElem, newElem, popElem, firstFree, oldParent);
    }

    /** Renders each created element with no previous element, attaches its
        node under the container (the root) or under its parent element's
        node, records its parent key, and adds it to the new populated
        dictionary. */
    method ExecuteCreations(host: Host, parent: Node, creationQueue: seq<Entry>,
                            newPopElemDict: OrderedDict<PopulatedElement>)
      returns (ghost ops: seq<HostOp>)
      requires host.Valid() && newPopElemDict.Valid()
      requires NoDup(Keys(creationQueue))
      requires forall x :: x in creationQueue ==> x.elem.key !in newPopElemDict.vals
      requires forall i :: 0 <= i < |creationQueue| ==>
        ParentReady(creationQueue[i], newPopElemDict.keys, creationQueue[..i])
      modifies host, newPopElemDict
      ensures host.Valid() && newPopElemDict.Valid() && host.next >= old(host.next)
      ensures CreationsDone(creationQueue, old(newPopElemDict.vals), newPopElemDict.vals, old(host.next))
      ensures host.log == old(host.log) + ops
      ensures ops == CreationOps(creationQueue, newPopElemDict.vals, parent)
    {
      ops := [];
      ghost var keys0, m0 := newPopElemDict.keys, newPopElemDict.vals;
      for i := 0 to |creationQueue|
        invariant host.Valid() && newPopElemDict.Valid() && host.next >= old(host.next)
        invariant CreationsSoFar(creationQueue, i, m0, newPopElemDict.vals, old(host.next))
        invariant host.log == old(host.log) + ops
        invariant ops == CreationOps(creationQueue[..i], newPopElemDict.vals, parent)
      {
        var entry := creationQueue[i];
        ghost var m := newPopElemDict.vals;
        CreationReady(creationQueue, i, keys0, m0, m, old(host.next));
        ghost var popElem := CreateElement(host, parent, entry, newPopElemDict);
        CreationStep(creationQueue, i, m0, m, popElem, old(host.next), parent);
        ghost var step := [Created(popElem.node, entry.elem.createNode, entry.elem.props),
                           Attached(AttachTarget(entry.parentKey, m, parent), popElem.node)];
        LogAppend(old(host.log), ops, step, host.log);
        ops := ops + step;
      }
      assert creationQueue[..|creationQueue|] == creationQueue;
      CreationsComplete(creationQueue, m0, newPopElemDict.vals, old(host.next));
    }

    /** One step of the creation phase: renders the entry's element with no
        previous element, attaches its node, and records it with its parent key. */
    method CreateElement(host: Host, parent: Node, entry: Entry, newPopElemDict: OrderedDict<PopulatedElement>)
      returns (ghost created: PopulatedElement)
      requires host.Valid() && newPopElemDict.Valid()
      requires entry.elem.key !in newPopElemDict.vals
      requires entry.parentKey.Some? ==> entry.parentKey.value in newPopElemDict.vals
      modifies host, newPopElemDict
      ensures host.Valid() && newPopElemDict.Valid() && host.next > old(host.next)
      ensures CreatedAs(created, entry, old(host.next))
      ensures newPopElemDict.vals == old(newPopElemDict.vals)[entry.elem.key := created]
      ensures host.log == old(host.log) + [Created(created.node, entry.elem.createNode, entry.elem.props),
        Attached(AttachTarget(entry.parentKey, old(newPopElemDict.vals), parent), created.node)]
    {
      var popElem := entry.elem.Render(host, None);
      ghost var target := AttachTarget(entry.parentKey, newPopElemDict.vals, parent);
      if entry.parentKey.None? {
        host.AddChild(parent, popElem.node);
      } else {
        host.AddChild(newPopElemDict.vals[entry.parentKey.value].node, popElem.node);
        popElem := popElem.(parentKey := entry.parentKey);
      }
      SnocSnoc(old(host.log), Created(popElem.node, entry.elem.createNode, entry.elem.props), Attached(target, popElem.node));
      newPopElemDict.Set(popElem.elem.key, popElem);
      created := popElem;
    }

    /** Gives each moved element its new parent key and attaches its node under
        the container (the root) or under its new parent element's node. */
    method ExecuteMoves(host: Host, parent: Node, moveQueue: seq<(Key, Option<Key>)>,
                        newPopElemDict: OrderedDict<PopulatedElement>)
      returns (ghost ops: seq<HostOp>)
      requires host.Valid() && newPopElemDict.Valid()
      requires forall m :: m in moveQueue ==>
        m.0 in newPopElemDict.vals && (m.1.Some? ==> m.1.value in newPopElemDict.vals)
      modifies host, newPopElemDict
      ensures host.Valid() && newPopElemDict.Valid() && host.next == old(host.next)
      ensures newPopElemDict.keys == old(newPopElemDict.keys)
      ensures newPopElemDict.vals == ApplyMoves(old(newPopElemDict.vals), moveQueue)
      ensures host.log == old(host.log) + ops && ops == MoveOps(moveQueue, newPopElemDict.vals, parent)
    {
      ops := [];
      for i := 0 to |moveQueue|
        invariant host.Valid() && newPopElemDict.Valid() && host.next == old(host.next)
        invariant newPopElemDict.keys == old(newPopElemDict.keys)
        invariant newPopElemDict.vals == ApplyMoves(old(newPopElemDict.vals), moveQueue[..i])
        invariant host.log == old(host.log) + ops && ops == MoveOps(moveQueue[..i], newPopElemDict.vals, parent)
      {
        var (src, dst) := moveQueue[i];
        assert moveQueue[i] in moveQueue;
        ghost var m := newPopElemDict.vals;
        var popElem := newPopElemDict.vals[src];
        popElem := popElem.(parentKey := dst);
        if dst.None? {
          host.AddChild(parent, popElem.node);
        } else {
          host.AddChild(newPopElemDict.vals[dst.value].node, popElem.node);
        }
        newPopElemDict.Set(src, popElem);
        MoveOpsStep(moveQueue, i, m, parent);
        ApplyMovesStep(old(newPopElemDict.vals), moveQueue, i);
        LogAppend(old(host.log), ops, [Attached(AttachTarget(dst, m, parent), popElem.node)], host.log);
        ops := ops + [Attached(AttachTarget(dst, m, parent), popElem.node)];
      }
      assert moveQueue[..|moveQueue|] == moveQueue;
    }

    /** The move phase followed by the destruction phase. */
    method MoveAndDestroy(host: Host, parent: Node, moveQueue: seq<(Key, Option<Key>)>, destructionQueue: seq<Node>,
                          newPopElemDict: OrderedDict<PopulatedElement>)
      returns (ghost moves: seq<HostOp>)
      requires host.Valid() && newPopElemDict.Valid()
      requires forall m :: m in moveQueue ==>
        m.0 in newPopElemDict.vals && (m.1.Some? ==> m.1.value in newPopElemDict.vals)
      modifies host, newPopElemDict
      ensures host.Valid() && newPopElemDict.Valid() && host.next == old(host.next)
      ensures newPopElemDict.vals == ApplyMoves(old(newPopElemDict.vals), moveQueue)
      ensures moves == MoveOps(moveQueue, newPopElemDict.vals, parent)
      ensures host.log == old(host.log) + moves + FreeOps(destructionQueue)
    {
      moves := ExecuteMoves(host, parent, moveQueue, newPopElemDict);
      ExecuteDestructions(host, destructionQueue);
    }

    /** Frees the nodes of the destroyed elements. */
    method ExecuteDestructions(host: Host, destructionQueue: seq<Node>)
      requires host.Valid()
      modifies host
      ensures host.Valid() && host.next == old(host.next)
      ensures host.log == old(host.log) + FreeOps(destructionQueue)
    {
      for i := 0 to |destructionQueue|
        invariant host.Valid() && host.next == old(host.next)
        invariant host.log == old(host.log) + FreeOps(destructionQueue[..i])
      {
        host.Free(destructionQueue[i]);
        assert FreeOps(destructionQueue[..i + 1]) == FreeOps(destructionQueue[..i]) + [Freed(destructionQueue[i])];
      }
      assert destructionQueue[..|destructionQueue|] == destructionQueue;
    }

    /** Rebuilds the populated tree in the shape of the new element tree from
        the new populated dictionary. */
    static function PopulateGraph(elem: Element, popElems: map<Key, PopulatedElement>): (p: PopulatedElement)
      requires KeysPresent(elem, popElems)
      ensures ElemsMatch(elem, popElems) ==> Mirrors(p, elem) && BoundTo(p, popElems)
      decreases elem
    {
      var popElem := popElems[elem.key];
      popElem.(children := seq(|elem.children|, i requires 0 <= i < |elem.children| =>
                                PopulateGraph(elem.children[i], popElems)))
    }
  }

  /** What the phases of a re-render did, given the pre-order `ne` of the new
      tree and the old element dictionary `od`: with distinct keys, the host
      log grew by the update chunks, then the creations, the moves and the
      frees, each as the queues of `Diff` prescribe, and the new populated
      dictionary holds every new element as `PopulatedAs` describes. */
  ghost predicate PhasesDone(ne: seq<Entry>, od: DictState<PopulatedElement>, container: Node,
                             log0: seq<HostOp>, next0: Node, log1: seq<HostOp>, t: RenderTrace)
    requires WellFormed(od)
  {
    && log1 == log0 + Concat(t.updates) + t.creations + t.moves + t.frees
    && UpdatePhase(log0, t.updates, UpdatedEntries(ne, od.vals), od.vals, t.populated, next0)
    && t.creations == CreationOps(CreationQueue(ne, od.vals), t.populated, container)
    && t.moves == MoveOps(MoveQueue(ne, od.vals), t.populated, container)
    && t.frees == FreeOps(DestructionQueue(od.keys, od.vals, Keys(ne)))
    && t.populated.Keys == (set x | x in ne :: x.elem.key)
    && forall x :: x in ne ==> x.elem.key in t.populated && PopulatedAs(t.populated[x.elem.key], x, od.vals, next0)
  }

  /** What a successful re-render of `ng` over the populated tree `og` did. */
  ghost predicate Rerendered(og: PopulatedElement, ng: Element, container: Node,
                             log0: seq<HostOp>, next0: Node, log1: seq<HostOp>, t: RenderTrace)
  {
    && NoDup(Keys(Flatten(ng, None)))
    && PhasesDone(Flatten(ng, None), OldElems(og), container, log0, next0, log1, t)
  }

  /** A successful fill of the new element dictionary holds each entry of the
      pre-order under its distinct key, in order. */
  lemma NewDictReady(ne: seq<Entry>, d: DictState<Entry>)
    requires FirstRepeat([], Keys(ne)) == None
    requires d == PutAll(DictState([], map[]), EntryPairs(ne))
    ensures NoDup(Keys(ne)) && WellFormed(d) && d.keys == Keys(ne) && ValuesOf(d) == ne
  {
    var empty: DictState<Entry> := DictState([], map[]);
    FirstRepeatSpec([], Keys(ne));
    assert [] + Keys(ne) == Keys(ne);
    FillNewKeys(empty, ne);
    NewDictValues(ne, d);
  }

  lemma NewDictValues(ne: seq<Entry>, d: DictState<Entry>)
    requires NoDup(Keys(ne))
    requires d == PutAll(DictState([], map[]), EntryPairs(ne))
    requires WellFormed(d) && d.keys == Keys(ne)
    ensures ValuesOf(d) == ne
  {
    var kvs := EntryPairs(ne);
    forall i, j | 0 <= i < j < |kvs|
      ensures kvs[i].0 != kvs[j].0
    {
      assert Keys(ne)[i] == kvs[i].0 && Keys(ne)[j] == kvs[j].0;
    }
    PutAllFreshLookup(DictState([], map[]), kvs);
    forall i | 0 <= i < |ne|
      ensures ValuesOf(d)[i] == ne[i]
    {
      assert d.keys[i] == kvs[i].0;
    }
  }

  lemma KeySet<V>(d: DictState<V>)
    requires WellFormed(d)
    ensures d.vals.Keys == set k | k in d.keys
  {
  }

  /** The queues meet what each phase requires: updated keys are old keys,
      created keys are new ones whose parents are ready in time, and every
      move has its element and its target once creations are done. */
  lemma PhasesReady(ne: seq<Entry>, ov: map<Key, PopulatedElement>)
    requires NoDup(Keys(ne)) && ParentsBefore(ne, None)
    ensures NoDup(UpdateQueue(ne, ov)) && NoDup(Keys(CreationQueue(ne, ov)))
    ensures forall k :: k in UpdateQueue(ne, ov) ==> k in ov && k in Keys(ne)
    ensures forall x :: x in CreationQueue(ne, ov) ==> x.elem.key !in ov && x.elem.key !in UpdateQueue(ne, ov)
    ensures forall i :: 0 <= i < |CreationQueue(ne, ov)| ==>
      ParentReady(CreationQueue(ne, ov)[i], UpdateQueue(ne, ov), CreationQueue(ne, ov)[..i])
    ensures
      var after := (set k | k in UpdateQueue(ne, ov)) + (set x | x in CreationQueue(ne, ov) :: x.elem.key);
      && after == (set x | x in ne :: x.elem.key)
      && forall m :: m in MoveQueue(ne, ov) ==> m.0 in after && (m.1.Some? ==> m.1.value in after)
  {
    QueuesNoDup(ne, ov);
    UpdateCreationPartition(ne, ov);
    CreationParentsReady(ne, ov);
    AfterIsNewKeys(ne, ov);
    MovesWithinNewKeys(ne, ov);
  }

  /** The updated and the created keys together are the keys of the new tree. */
  lemma AfterIsNewKeys(ne: seq<Entry>, ov: map<Key, PopulatedElement>)
    ensures (set k | k in UpdateQueue(ne, ov)) + (set x | x in CreationQueue(ne, ov) :: x.elem.key)
         == (set x | x in ne :: x.elem.key)
  {
    UpdateCreationPartition(ne, ov);
    var after := (set k | k in UpdateQueue(ne, ov)) + (set x | x in CreationQueue(ne, ov) :: x.elem.key);
    forall x | x in ne
      ensures x.elem.key in after
    {
      var i :| 0 <= i < |ne| && ne[i] == x;
      assert Keys(ne)[i] == x.elem.key;
    }
  }

  /** Every move names a key of the new tree and, when it has one, a parent
      key of the new tree. */
  lemma MovesWithinNewKeys(ne: seq<Entry>, ov: map<Key, PopulatedElement>)
    requires ParentsBefore(ne, None)
    ensures forall m :: m in MoveQueue(ne, ov) ==>
      m.0 in (set x | x in ne :: x.elem.key) && (m.1.Some? ==> m.1.value in (set x | x in ne :: x.elem.key))
  {
    MoveQueueExact(ne, ov);
    ParentKeysPresent(ne);
    forall m | m in MoveQueue(ne, ov)
      ensures m.0 in (set x | x in ne :: x.elem.key)
      ensures m.1.Some? ==> m.1.value in (set x | x in ne :: x.elem.key)
    {
      var kp := KeyParentPairs(ne);
      var j :| 0 <= j < |kp| && kp[j] == m;
      assert ne[j] in ne;
      if m.1.Some? {
        var i :| 0 <= i < |ne| && Keys(ne)[i] == m.1.value;
        assert ne[i] in ne;
      }
    }
  }

  /** The update phase left, for the `i`-th updated key, its chunk of the log
      and its new populated element in `pop1`, and nothing else in `pop1`. */
  ghost predicate UpdatesDone(uq: seq<Key>, ov: map<Key, PopulatedElement>, nv: map<Key, Entry>, log0: seq<HostOp>,
                              chunks: seq<seq<HostOp>>, pop1: map<Key, PopulatedElement>, next0: Node)
  {
    && |chunks| == |uq|
    && pop1.Keys == (set k | k in uq)
    && forall i :: 0 <= i < |uq| ==>
      uq[i] in ov && uq[i] in nv && uq[i] in pop1
      && UpdateResult(chunks[i], ov[uq[i]], nv[uq[i]].elem, pop1[uq[i]], next0, ParentBefore(log0, chunks, i, ov[uq[i]]))
  }

  /** The creation phase added each created element to `pop1` as `CreatedAs`
      describes and kept every earlier entry. */
  ghost predicate CreationsDone(cq: seq<Entry>, pop1: map<Key, PopulatedElement>,
                                pop2: map<Key, PopulatedElement>, next1: Node)
  {
    && pop2.Keys == pop1.Keys + (set x | x in cq :: x.elem.key)
    && (forall k :: k in pop1 ==> pop2[k] == pop1[k])
    && forall j :: 0 <= j < |cq| ==> CreatedAs(pop2[cq[j].elem.key], cq[j], next1)
  }

  /** After the three phases that touch the new populated dictionary, it holds
      every new element as `PopulatedAs` describes, the update chunks still
      match its nodes, and the moves changed no node. */
  lemma {:induction false} FinalPopulated(ne: seq<Entry>, ov: map<Key, PopulatedElement>, nv: map<Key, Entry>,
                                         log0: seq<HostOp>, chunks: seq<seq<HostOp>>, pop1: map<Key, PopulatedElement>,
                                         pop2: map<Key, PopulatedElement>, pop: map<Key, PopulatedElement>,
                                         next0: Node, next1: Node)
    requires NoDup(Keys(ne))
    requires forall x :: x in ne ==> x.elem.key in nv && nv[x.elem.key] == x
    requires UpdatesDone(UpdateQueue(ne, ov), ov, nv, log0, chunks, pop1, next0) && next1 >= next0
    requires CreationsDone(CreationQueue(ne, ov), pop1, pop2, next1)
    requires pop == ApplyMoves(pop2, MoveQueue(ne, ov))
    ensures SameNodes(pop2, pop)
    ensures UpdatePhase(log0, chunks, UpdatedEntries(ne, ov), ov, pop, next0)
    ensures forall x :: x in ne ==> x.elem.key in pop && PopulatedAs(pop[x.elem.key], x, ov, next0)
  {
    var uq, ue, cq, mq := UpdateQueue(ne, ov), UpdatedEntries(ne, ov), CreationQueue(ne, ov), MoveQueue(ne, ov);
    UpdateCreationPartition(ne, ov);
    MoveQueueExact(ne, ov);
    MoveTargetsUnique(ne, ov);
    ApplyMovesClosedForm(pop2, mq);
    forall i | 0 <= i < |ue|
      ensures ue[i].elem.key in ov && ue[i].elem.key in pop
      ensures UpdateChunk(chunks[i], ov[ue[i].elem.key], ue[i].elem, pop[ue[i].elem.key].node, next0,
                          ParentBefore(log0, chunks, i, ov[ue[i].elem.key]))
    {
      assert uq[i] == ue[i].elem.key;
      assert ue[i] in ue;
    }
    forall x | x in ne
      ensures x.elem.key in pop && PopulatedAs(pop[x.elem.key], x, ov, next0)
    {
      var k := x.elem.key;
      MovedParentIs(mq, k, pop2[k].parentKey, x.parentKey) by {
        assert pop2.Keys == pop.Keys;
      }
      if k in ov {
        assert x in ue;
        var i :| 0 <= i < |ue| && ue[i] == x;
        assert uq[i] == k;
      } else {
        assert x in cq;
        var j :| 0 <= j < |cq| && cq[j] == x;
        assert (k, x.parentKey) !in mq;
      }
    }
  }

  /** The phases compose: after updates, creations, moves and frees, the log
      and the new populated dictionary are as `PhasesDone` describes (the
      creation operations read the same nodes from the final dictionary as
      from the one they were issued against, since moves change no node). */
  lemma PhasesCompose(ne: seq<Entry>, od: DictState<PopulatedElement>, nv: map<Key, Entry>, container: Node,
                      next0: Node, next1: Node, log0: seq<HostOp>, log1: seq<HostOp>, t: RenderTrace,
                      pop1: map<Key, PopulatedElement>, pop2: map<Key, PopulatedElement>)
    requires WellFormed(od) && NoDup(Keys(ne)) && ParentsBefore(ne, None)
    requires forall x :: x in ne ==> x.elem.key in nv && nv[x.elem.key] == x
    requires UpdatesDone(UpdateQueue(ne, od.vals), od.vals, nv, log0, t.updates, pop1, next0) && next1 >= next0
    requires CreationsDone(CreationQueue(ne, od.vals), pop1, pop2, next1)
    requires t.creations == CreationOps(CreationQueue(ne, od.vals), pop2, container)
    requires t.populated == ApplyMoves(pop2, MoveQueue(ne, od.vals))
    requires t.moves == MoveOps(MoveQueue(ne, od.vals), t.populated, container)
    requires t.frees == FreeOps(DestructionQueue(od.keys, od.vals, Keys(ne)))
    requires log1 == log0 + Concat(t.updates) + t.creations + t.moves + t.frees
    ensures PhasesDone(ne, od, container, log0, next0, log1, t)
  {
    var ov := od.vals;
    PhasesReady(ne, ov);
    FinalPopulated(ne, ov, nv, log0, t.updates, pop1, pop2, t.populated, next0, next1);
    CreationOpsSameNodes(CreationQueue(ne, ov), pop2, t.populated, container);
  }

  /** (key, entry) for each entry: what filling the new element dictionary inserts. */
  function EntryPairs(es: seq<Entry>): (r: seq<(Key, Entry)>)
    ensures |r| == |es|
  {
    seq(|es|, i requires 0 <= i < |es| => (es[i].elem.key, es[i]))
  }

  /** The pre-order of a tree around its `i`-th child subtree. */
  lemma ChildStep(elem: Element, parentKey: Option<Key>, i: nat)
    requires i < |elem.children|
    ensures
      var done := [Entry(elem, parentKey)] + FlattenAll(elem.children[..i], Some(elem.key));
      var sub := Flatten(elem.children[i], Some(elem.key));
      && Flatten(elem, parentKey) == done + sub + FlattenAll(elem.children[i + 1..], Some(elem.key))
      && done + sub == [Entry(elem, parentKey)] + FlattenAll(elem.children[..i + 1], Some(elem.key))
  {
    ChildSplit(elem, parentKey, i);
    ChildGrow(elem, parentKey, i);
  }

  lemma ChildSplit(elem: Element, parentKey: Option<Key>, i: nat)
    requires i < |elem.children|
    ensures Flatten(elem, parentKey)
         == [Entry(elem, parentKey)] + FlattenAll(elem.children[..i], Some(elem.key))
            + Flatten(elem.children[i], Some(elem.key)) + FlattenAll(elem.children[i + 1..], Some(elem.key))
  {
    var root, k := [Entry(elem, parentKey)], Some(elem.key);
    var a, b, c := FlattenAll(elem.children[..i], k), Flatten(elem.children[i], k), FlattenAll(elem.children[i + 1..], k);
    FlattenAllSplit(elem.children, k, i);
    assert Flatten(elem, parentKey) == root + (a + b + c);
  }

  lemma ChildGrow(elem: Element, parentKey: Option<Key>, i: nat)
    requires i < |elem.children|
    ensures [Entry(elem, parentKey)] + FlattenAll(elem.children[..i], Some(elem.key)) + Flatten(elem.children[i], Some(elem.key))
         == [Entry(elem, parentKey)] + FlattenAll(elem.children[..i + 1], Some(elem.key))
  {
    assert elem.children[..i + 1][..i] == elem.children[..i];
    assert FlattenAll(elem.children[..i + 1], Some(elem.key))
        == FlattenAll(elem.children[..i], Some(elem.key)) + Flatten(elem.children[i], Some(elem.key));
  }

  /** How filling the new element dictionary splits at a child subtree. */
  lemma FillStep(d0: DictState<Entry>, done: seq<Entry>, sub: seq<Entry>, rest: seq<Entry>)
    requires WellFormed(d0) && FirstRepeat(d0.keys, Keys(done)) == None
    ensures PutAll(d0, EntryPairs(done)).keys == d0.keys + Keys(done)
    ensures FirstRepeat(d0.keys + Keys(done), Keys(sub)).Some? ==>
      FirstRepeat(d0.keys, Keys(done + sub + rest)) == FirstRepeat(d0.keys + Keys(done), Keys(sub))
    ensures FirstRepeat(d0.keys + Keys(done), Keys(sub)).None? ==> FirstRepeat(d0.keys, Keys(done + sub)) == None
    ensures PutAll(PutAll(d0, EntryPairs(done)), EntryPairs(sub)) == PutAll(d0, EntryPairs(done + sub))
  {
    var seen := d0.keys;
    assert Keys(done + sub) == Keys(done) + Keys(sub);
    assert Keys(done + sub + rest) == Keys(done) + (Keys(sub) + Keys(rest));
    FirstRepeatConcat(seen, Keys(done), Keys(sub) + Keys(rest));
    FirstRepeatConcat(seen + Keys(done), Keys(sub), Keys(rest));
    FirstRepeatConcat(seen, Keys(done), Keys(sub));
    assert EntryPairs(done + sub) == EntryPairs(done) + EntryPairs(sub);
    PutAllConcat(d0, EntryPairs(done), EntryPairs(sub));
    FillNewKeys(d0, done);
  }

  /** Filling the new element dictionary, with no repeated key, appends the
      new keys in order. */
  lemma FillNewKeys(d0: DictState<Entry>, es: seq<Entry>)
    requires WellFormed(d0) && FirstRepeat(d0.keys, Keys(es)) == None
    ensures WellFormed(PutAll(d0, EntryPairs(es)))
    ensures PutAll(d0, EntryPairs(es)).keys == d0.keys + Keys(es)
  {
    FirstRepeatSpec(d0.keys, Keys(es));
    var kvs := EntryPairs(es);
    EntryPairsFresh(d0, es);
    PutAllFresh(d0, kvs);
    assert PairKeys(kvs) == Keys(es);
  }

  /** Keys that extend `d0.keys` without repeats are new to `d0` and distinct. */
  lemma EntryPairsFresh(d0: DictState<Entry>, es: seq<Entry>)
    requires WellFormed(d0) && NoDup(d0.keys + Keys(es))
    ensures forall i :: 0 <= i < |es| ==> EntryPairs(es)[i].0 !in d0.vals
    ensures forall i, j :: 0 <= i < j < |es| ==> EntryPairs(es)[i].0 != EntryPairs(es)[j].0
  {
    var all, kvs := d0.keys + Keys(es), EntryPairs(es);
    forall i | 0 <= i < |kvs|
      ensures kvs[i].0 !in d0.vals
    {
      assert all[|d0.keys| + i] == kvs[i].0;
      forall j | 0 <= j < |d0.keys|
        ensures d0.keys[j] != kvs[i].0
      {
        assert all[j] == d0.keys[j];
      }
    }
    forall i, j | 0 <= i < j < |kvs|
      ensures kvs[i].0 != kvs[j].0
    {
      assert all[|d0.keys| + i] == kvs[i].0 && all[|d0.keys| + j] == kvs[j].0;
    }
  }

}
