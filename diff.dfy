/** The diff of `Renderer.Render`, stated on values: from the pre-order entries
    of the new tree and the old key-indexed populated elements, the update,
    creation, move and destruction queues, and the parent key each element
    records afterwards. */
module Diff {
  import opened Wrappers
  import opened HostGraph
  import opened Elements
  import opened OrderedDicts
  import opened FirstRender

  /** The new entries whose key was in the old tree, in pre-order. */
  function UpdatedEntries(ne: seq<Entry>, ov: map<Key, PopulatedElement>): seq<Entry>
  {
    if ne == [] then []
    else
      var x := ne[|ne| - 1];
      UpdatedEntries(ne[..|ne| - 1], ov) + (if x.elem.key in ov then [x] else [])
  }

  /** `updateQueue`. */
  function UpdateQueue(ne: seq<Entry>, ov: map<Key, PopulatedElement>): seq<Key>
  {
    Keys(UpdatedEntries(ne, ov))
  }

  /** `creationQueue`: the new entries whose key was not in the old tree. */
  function CreationQueue(ne: seq<Entry>, ov: map<Key, PopulatedElement>): seq<Entry>
  {
    if ne == [] then []
    else
      var x := ne[|ne| - 1];
      CreationQueue(ne[..|ne| - 1], ov) + (if x.elem.key !in ov then [x] else [])
  }

  /** `moveQueue`: (key, new parent key) of the kept elements whose recorded
      old parent key differs from the new one. */
  function MoveQueue(ne: seq<Entry>, ov: map<Key, PopulatedElement>): seq<(Key, Option<Key>)>
  {
    if ne == [] then []
    else
      var x := ne[|ne| - 1];
      MoveQueue(ne[..|ne| - 1], ov)
        + (if x.elem.key in ov && ov[x.elem.key].parentKey != x.parentKey
           then [(x.elem.key, x.parentKey)] else [])
  }

  /** The old keys, in old enumeration order, that the new tree lacks. */
  function DestroyedKeys(ok: seq<Key>, nk: seq<Key>): seq<Key>
  {
    if ok == [] then []
    else
      var k := ok[|ok| - 1];
      DestroyedKeys(ok[..|ok| - 1], nk) + (if k !in nk then [k] else [])
  }

  /** `destructionQueue`: the nodes of the old keys that the new tree lacks. */
  function DestructionQueue(ok: seq<Key>, ov: map<Key, PopulatedElement>, nk: seq<Key>): seq<Node>
    requires forall k :: k in ok ==> k in ov
  {
    if ok == [] then []
    else
      var k := ok[|ok| - 1];
      DestructionQueue(ok[..|ok| - 1], ov, nk) + (if k !in nk then [ov[k].node] else [])
  }

  /** The parent key a new entry's populated element holds after the render:
      created elements and moved ones get their new parent key, but updated
      elements that were not moved keep the null key `Render` gives them. */
  function RecordedParentKey(ov: map<Key, PopulatedElement>, x: Entry): Option<Key>
  {
    if x.elem.key !in ov then x.parentKey
    else if ov[x.elem.key].parentKey != x.parentKey then x.parentKey
    else None
  }

  /** Every new key goes to exactly one of the update and creation queues:
      to the update queue if and only if it was in the old tree. */
  lemma UpdateCreationPartition(ne: seq<Entry>, ov: map<Key, PopulatedElement>)
    ensures forall x :: x in UpdatedEntries(ne, ov) <==> x in ne && x.elem.key in ov
    ensures forall k :: k in UpdateQueue(ne, ov) <==> k in Keys(ne) && k in ov
    ensures forall x :: x in CreationQueue(ne, ov) <==> x in ne && x.elem.key !in ov
    ensures |UpdateQueue(ne, ov)| + |CreationQueue(ne, ov)| == |ne|
  {
    UpdatedEntriesExact(ne, ov);
    UpdateQueueExact(ne, ov);
    CreationQueueExact(ne, ov);
    QueueLengths(ne, ov);
  }

  lemma {:induction false} UpdatedEntriesExact(ne: seq<Entry>, ov: map<Key, PopulatedElement>)
    ensures forall x :: x in UpdatedEntries(ne, ov) <==> x in ne && x.elem.key in ov
  {
    if ne != [] {
      var init := ne[..|ne| - 1];
      UpdatedEntriesExact(init, ov);
      assert ne == init + [ne[|ne| - 1]];
    }
  }

  lemma {:induction false} CreationQueueExact(ne: seq<Entry>, ov: map<Key, PopulatedElement>)
    ensures forall x :: x in CreationQueue(ne, ov) <==> x in ne && x.elem.key !in ov
  {
    if ne != [] {
      var init := ne[..|ne| - 1];
      CreationQueueExact(init, ov);
      assert ne == init + [ne[|ne| - 1]];
    }
  }

  lemma {:induction false} QueueLengths(ne: seq<Entry>, ov: map<Key, PopulatedElement>)
    ensures |UpdatedEntries(ne, ov)| + |CreationQueue(ne, ov)| == |ne|
  {
    if ne != [] {
      QueueLengths(ne[..|ne| - 1], ov);
    }
  }

  /** A key is updated if and only if it is a new key that was in the old tree. */
  lemma UpdateQueueExact(ne: seq<Entry>, ov: map<Key, PopulatedElement>)
    ensures forall k :: k in UpdateQueue(ne, ov) <==> k in Keys(ne) && k in ov
  {
    UpdatedEntriesExact(ne, ov);
    var ue := UpdatedEntries(ne, ov);
    forall k | k in UpdateQueue(ne, ov)
      ensures k in Keys(ne) && k in ov
    {
      var i :| 0 <= i < |ue| && Keys(ue)[i] == k;
      assert ue[i] in ue;
      var j :| 0 <= j < |ne| && ne[j] == ue[i];
      assert Keys(ne)[j] == k;
    }
    forall k | k in Keys(ne) && k in ov
      ensures k in UpdateQueue(ne, ov)
    {
      var j :| 0 <= j < |ne| && Keys(ne)[j] == k;
      assert ne[j] in ue;
      var i :| 0 <= i < |ue| && ue[i] == ne[j];
      assert Keys(ue)[i] == k;
    }
  }

  /** The move queue holds exactly the kept keys whose recorded old parent key
      differs from their new parent key, each with its new parent key, and
      every moved key is also updated. */
  lemma MoveQueueExact(ne: seq<Entry>, ov: map<Key, PopulatedElement>)
    ensures forall x :: x in ne ==>
      ((x.elem.key, x.parentKey) in MoveQueue(ne, ov) <==>
        (x.elem.key in ov && ov[x.elem.key].parentKey != x.parentKey))
    ensures forall m :: m in MoveQueue(ne, ov) ==>
      m in KeyParentPairs(ne) && m.0 in ov && ov[m.0].parentKey != m.1
    ensures forall m :: m in MoveQueue(ne, ov) ==> m.0 in UpdateQueue(ne, ov)
  {
    MoveQueueFrom(ne, ov);
    MoveQueueHolds(ne, ov);
    UpdateQueueExact(ne, ov);
    forall m | m in MoveQueue(ne, ov)
      ensures m.0 in Keys(ne)
    {
      var i :| 0 <= i < |ne| && KeyParentPairs(ne)[i] == m;
      assert Keys(ne)[i] == m.0;
    }
  }

  /** Every move is a (key, new parent key) pair of a kept key whose recorded
      parent key differs. */
  lemma {:induction false} MoveQueueFrom(ne: seq<Entry>, ov: map<Key, PopulatedElement>)
    ensures forall m :: m in MoveQueue(ne, ov) ==>
      m in KeyParentPairs(ne) && m.0 in ov && ov[m.0].parentKey != m.1
  {
    if ne != [] {
      var init := ne[..|ne| - 1];
      MoveQueueFrom(init, ov);
      forall m | m in MoveQueue(ne, ov)
        ensures m in KeyParentPairs(ne)
      {
        if m !in MoveQueue(init, ov) {
          assert KeyParentPairs(ne)[|ne| - 1] == m;
        } else {
          var i :| 0 <= i < |init| && KeyParentPairs(init)[i] == m;
          assert KeyParentPairs(ne)[i] == m;
        }
      }
    }
  }

  /** Every kept key whose recorded parent key differs is moved. */
  lemma {:induction false} MoveQueueHolds(ne: seq<Entry>, ov: map<Key, PopulatedElement>)
    ensures forall x :: x in ne && x.elem.key in ov && ov[x.elem.key].parentKey != x.parentKey ==>
      (x.elem.key, x.parentKey) in MoveQueue(ne, ov)
  {
    if ne != [] {
      var init := ne[..|ne| - 1];
      MoveQueueHolds(init, ov);
      assert ne == init + [ne[|ne| - 1]];
      forall x | x in ne && x.elem.key in ov && ov[x.elem.key].parentKey != x.parentKey
        ensures (x.elem.key, x.parentKey) in MoveQueue(ne, ov)
      {
        if x != ne[|ne| - 1] {
          assert x in init;
        }
      }
    }
  }

  /** (key, parent key) of each new entry, the pairs the move queue draws from. */
  function KeyParentPairs(ne: seq<Entry>): (r: seq<(Key, Option<Key>)>)
    ensures |r| == |ne|
  {
    seq(|ne|, i requires 0 <= i < |ne| => (ne[i].elem.key, ne[i].parentKey))
  }

  /** The nodes of the given keys. */
  function NodesOf(ks: seq<Key>, ov: map<Key, PopulatedElement>): (ns: seq<Node>)
    requires forall k :: k in ks ==> k in ov
    ensures |ns| == |ks|
  {
    seq(|ks|, i requires 0 <= i < |ks| => ov[ks[i]].node)
  }

  /** The destruction queue holds, in old order, the node of every old key
      that the new tree lacks, and of no other key. */
  lemma DestructionQueueExact(ok: seq<Key>, ov: map<Key, PopulatedElement>, nk: seq<Key>)
    requires forall k :: k in ok ==> k in ov
    ensures forall k :: k in DestroyedKeys(ok, nk) <==> k in ok && k !in nk
    ensures DestructionQueue(ok, ov, nk) == NodesOf(DestroyedKeys(ok, nk), ov)
  {
    DestroyedKeysExact(ok, nk);
    DestructionQueueNodes(ok, ov, nk);
  }

  lemma {:induction false} DestroyedKeysExact(ok: seq<Key>, nk: seq<Key>)
    ensures forall k :: k in DestroyedKeys(ok, nk) <==> k in ok && k !in nk
  {
    if ok != [] {
      var init := ok[..|ok| - 1];
      DestroyedKeysExact(init, nk);
      assert ok == init + [ok[|ok| - 1]];
    }
  }

  lemma {:induction false} DestructionQueueNodes(ok: seq<Key>, ov: map<Key, PopulatedElement>, nk: seq<Key>)
    requires forall k :: k in ok ==> k in ov
    ensures forall k :: k in DestroyedKeys(ok, nk) ==> k in ov
    ensures DestructionQueue(ok, ov, nk) == NodesOf(DestroyedKeys(ok, nk), ov)
  {
    DestroyedKeysExact(ok, nk);
    if ok != [] {
      var init, k := ok[..|ok| - 1], ok[|ok| - 1];
      assert forall j :: j in init ==> j in ok;
      DestructionQueueNodes(init, ov, nk);
      if k !in nk {
        assert k in ok;
        NodesOfSnoc(DestroyedKeys(init, nk), k, ov);
      } else {
        assert DestroyedKeys(ok, nk) == DestroyedKeys(init, nk);
      }
    }
  }

  lemma NodesOfSnoc(ks: seq<Key>, k: Key, ov: map<Key, PopulatedElement>)
    requires forall j :: j in ks ==> j in ov
    requires k in ov
    ensures NodesOf(ks + [k], ov) == NodesOf(ks, ov) + [ov[k].node]
  {
    var l, r := NodesOf(ks + [k], ov), NodesOf(ks, ov) + [ov[k].node];
    forall i | 0 <= i < |l|
      ensures l[i] == r[i]
    {
      if i < |ks| {
        assert (ks + [k])[i] == ks[i];
      }
    }
  }

  /** When a new entry is created, its parent element is already in the new
      populated dictionary: the entry is the root, or its parent key is an
      updated key (updates run first) or the key of an earlier creation. */
  lemma {:induction false} CreationParentsReady(ne: seq<Entry>, ov: map<Key, PopulatedElement>)
    requires ParentsBefore(ne, None)
    ensures forall i :: 0 <= i < |CreationQueue(ne, ov)| ==>
      ParentReady(CreationQueue(ne, ov)[i], UpdateQueue(ne, ov), CreationQueue(ne, ov)[..i])
  {
    if ne != [] {
      var init := ne[..|ne| - 1];
      assert ParentsBefore(init, None) by {
        forall j | 0 <= j < |init| ensures init[..j] == ne[..j] { }
      }
      CreationParentsReady(init, ov);
      QueuesGrow(ne, ov);
      var cq, ci := CreationQueue(ne, ov), CreationQueue(init, ov);
      var uq, ui := UpdateQueue(ne, ov), UpdateQueue(init, ov);
      forall i | 0 <= i < |cq|
        ensures ParentReady(cq[i], uq, cq[..i])
      {
        if i < |ci| {
          assert cq[..i] == ci[..i];
          ParentReadyGrows(ci[i], ui, uq, ci[..i]);
        } else {
          LastCreationReady(ne, ov);
          ParentReadyGrows(cq[i], ui, uq, ci);
        }
      }
    }
  }

  /** The queues of a pre-order extend the queues of its prefix by at most
      its last entry. */
  lemma QueuesGrow(ne: seq<Entry>, ov: map<Key, PopulatedElement>)
    requires ne != []
    ensures UpdateQueue(ne[..|ne| - 1], ov) == UpdateQueue(ne, ov)[..|UpdateQueue(ne[..|ne| - 1], ov)|]
    ensures CreationQueue(ne[..|ne| - 1], ov) == CreationQueue(ne, ov)[..|CreationQueue(ne[..|ne| - 1], ov)|]
    ensures |CreationQueue(ne, ov)| <= |CreationQueue(ne[..|ne| - 1], ov)| + 1
    ensures |CreationQueue(ne, ov)| > |CreationQueue(ne[..|ne| - 1], ov)| ==>
      ne[|ne| - 1].elem.key !in ov
      && CreationQueue(ne, ov)[|CreationQueue(ne[..|ne| - 1], ov)|] == ne[|ne| - 1]
  {
    var init := ne[..|ne| - 1];
    var ui, ue := UpdatedEntries(init, ov), UpdatedEntries(ne, ov);
    assert ui == ue[..|ui|];
    assert Keys(ui) == Keys(ue)[..|ui|];
  }

  /** The last entry of a pre-order, when created, finds its parent ready
      among the queues of the entries before it. */
  lemma LastCreationReady(ne: seq<Entry>, ov: map<Key, PopulatedElement>)
    requires ParentsBefore(ne, None) && ne != [] && ne[|ne| - 1].elem.key !in ov
    ensures ParentReady(ne[|ne| - 1], UpdateQueue(ne[..|ne| - 1], ov), CreationQueue(ne[..|ne| - 1], ov))
  {
    var init, x := ne[..|ne| - 1], ne[|ne| - 1];
    if x.parentKey.Some? {
      var p := x.parentKey.value;
      assert p in Keys(init);
      var j :| 0 <= j < |init| && Keys(init)[j] == p;
      UpdateCreationPartition(init, ov);
      if p in ov {
        assert p in UpdateQueue(init, ov);
      } else {
        var ci := CreationQueue(init, ov);
        assert init[j] in ci;
        var c :| 0 <= c < |ci| && ci[c] == init[j];
        assert Keys(ci)[c] == p;
      }
    }
  }

  lemma ParentReadyGrows(x: Entry, u: seq<Key>, u': seq<Key>, c: seq<Entry>)
    requires ParentReady(x, u, c) && |u| <= |u'| && u == u'[..|u|]
    ensures ParentReady(x, u', c)
  {
    if x.parentKey.Some? && x.parentKey.value in u {
      var j :| 0 <= j < |u| && u[j] == x.parentKey.value;
      assert u'[j] == u[j];
    }
  }

  /** A created entry's parent is the root container, an updated key, or a key
      created before it. */
  ghost predicate ParentReady(x: Entry, updated: seq<Key>, createdBefore: seq<Entry>)
  {
    x.parentKey.None? || x.parentKey.value in updated || x.parentKey.value in Keys(createdBefore)
  }

  /** Every parent key in a pre-order is itself a key of the tree, so every move
      target exists once updates and creations have run. */
  lemma ParentKeysPresent(ne: seq<Entry>)
    requires ParentsBefore(ne, None)
    ensures forall x :: x in ne && x.parentKey.Some? ==> x.parentKey.value in Keys(ne)
  {
    forall x | x in ne && x.parentKey.Some?
      ensures x.parentKey.value in Keys(ne)
    {
      var j :| 0 <= j < |ne| && ne[j] == x;
      assert x.parentKey.value in Keys(ne[..j]);
      assert Keys(ne[..j]) == Keys(ne)[..j];
    }
  }

  /** The parent key a populated element was evidently meant to record after
      the render: its new parent key, whether or not it moved. */
  function RecordedParentKeyFixed(ov: map<Key, PopulatedElement>, x: Entry): Option<Key>
  {
    x.parentKey
  }

  /** Old elements that record the parent keys of `ne` as the corrected
      recording leaves them. */
  ghost predicate RecordsFixed(ne: seq<Entry>, ov: map<Key, PopulatedElement>, ov': map<Key, PopulatedElement>)
  {
    forall x :: x in ne ==> x.elem.key in ov' && ov'[x.elem.key].parentKey == RecordedParentKeyFixed(ov, x)
  }

  /** With the corrected recording, re-rendering a tree that did not change
      moves nothing. */
  lemma {:induction false} FixedRecordingNoSpuriousMoves(ne: seq<Entry>, ov: map<Key, PopulatedElement>, ov': map<Key, PopulatedElement>)
    requires RecordsFixed(ne, ov, ov')
    ensures MoveQueue(ne, ov') == []
  {
    if ne != [] {
      var init := ne[..|ne| - 1];
      assert RecordsFixed(init, ov, ov') by {
        forall x | x in init ensures x in ne { }
      }
      FixedRecordingNoSpuriousMoves(init, ov, ov');
      assert ne[|ne| - 1] in ne;
    }
  }

  /** With the corrected recording, the next frame moves an element exactly
      when its parent key changed between the two frames. */
  lemma FixedRecordingMovesReparented(prev: seq<Entry>, ov: map<Key, PopulatedElement>,
                                      ov': map<Key, PopulatedElement>, ne: seq<Entry>)
    requires RecordsFixed(prev, ov, ov')
    ensures forall x, y :: x in prev && y in ne && x.elem.key == y.elem.key ==>
      ((y.elem.key, y.parentKey) in MoveQueue(ne, ov') <==> x.parentKey != y.parentKey)
  {
    MoveQueueExact(ne, ov');
  }

  /** A `VBox` keyed "x" holding a `Label` keyed "y". */
  function LabelY(): Element
  {
    Element("y", "Label", Props(map[]), "NewLabel", "UpdateLabel", [])
  }

  function BoxX(): Element
  {
    Element("x", "VBox", Props(map[]), "NewVBox", "UpdateVBox", [LabelY()])
  }

  /** The pre-orders of the three frames of the scenario below. */
  lemma ScenarioFrames()
    ensures Flatten(LabelY(), None) == [Entry(LabelY(), None)]
    ensures Flatten(BoxX(), None) == [Entry(BoxX(), None), Entry(LabelY(), Some("x"))]
    ensures Keys(Flatten(LabelY(), None)) == ["y"]
  {
    var x, y := BoxX(), LabelY();
    assert [y][..0] == [];
    assert FlattenAll([y], Some("x")) == Flatten(y, Some("x"));
    assert FlattenAll(y.children, Some("y")) == [];
  }

  /** The old element dictionary after rendering x[y] first, with handles
      from 0 on: what filling it from the first render's populated tree gives. */
  function AfterFirst(): map<Key, PopulatedElement>
  {
    PutAll(DictState([], map[]), PopPairs(FirstGraph(BoxX(), None, 0))).vals
  }

  /** The old elements after rendering x[y] a second time, as written. */
  function AfterSecond(): map<Key, PopulatedElement>
  {
    var ov1 := AfterFirst();
    map["x" := ov1["x"].(parentKey := RecordedParentKey(ov1, Entry(BoxX(), None))),
        "y" := ov1["y"].(parentKey := RecordedParentKey(ov1, Entry(LabelY(), Some("x"))))]
  }

  /** The old elements after rendering x[y] a second time, corrected. */
  function AfterSecondFixed(): map<Key, PopulatedElement>
  {
    var ov1 := AfterFirst();
    map["x" := ov1["x"].(parentKey := RecordedParentKeyFixed(ov1, Entry(BoxX(), None))),
        "y" := ov1["y"].(parentKey := RecordedParentKeyFixed(ov1, Entry(LabelY(), Some("x"))))]
  }

  /** As written, an updated element that did not move records no parent key.
      Rendering x[y] twice forgets that y sits under x, so a third frame that
      renders y alone destroys x but does not move y out of it, and a third
      frame that renders x[y] again moves y under the x it is already under. */
  lemma StaleParentKeyScenario()
    ensures MoveQueue(Flatten(BoxX(), None), AfterFirst()) == []
    ensures AfterSecond()["y"].parentKey == None
    ensures DestroyedKeys(["x", "y"], Keys(Flatten(LabelY(), None))) == ["x"]
    ensures MoveQueue(Flatten(LabelY(), None), AfterSecond()) == []
    ensures MoveQueue(Flatten(BoxX(), None), AfterSecond()) == [("y", Some("x"))]
  {
    StaleSecondFrame();
    StaleDropX();
    StaleReaddY();
  }

  /** The second frame x[y] moves nothing, and y's recorded parent key is reset. */
  lemma StaleSecondFrame()
    ensures MoveQueue(Flatten(BoxX(), None), AfterFirst()) == []
    ensures AfterSecond()["y"].parentKey == None
  {
    ScenarioFrames();
    var x, y := BoxX(), LabelY();
    assert [Entry(x, None), Entry(y, Some("x"))][..1] == [Entry(x, None)];
    assert [Entry(x, None)][..0] == [];
    assert MoveQueue([Entry(x, None)], AfterFirst()) == [];
  }

  /** A third frame with y alone destroys x and moves nothing. */
  lemma StaleDropX()
    ensures DestroyedKeys(["x", "y"], Keys(Flatten(LabelY(), None))) == ["x"]
    ensures MoveQueue(Flatten(LabelY(), None), AfterSecond()) == []
  {
    ScenarioFrames();
    assert ["x", "y"][..1] == ["x"] && ["x"][..0] == [];
    assert DestroyedKeys(["x"], ["y"]) == ["x"];
    assert [Entry(LabelY(), None)][..0] == [];
    assert AfterSecond()["y"].parentKey == None;
  }

  /** A third frame with x[y] again moves y under x. */
  lemma StaleReaddY()
    ensures MoveQueue(Flatten(BoxX(), None), AfterSecond()) == [("y", Some("x"))]
  {
    ScenarioFrames();
    var x, y := BoxX(), LabelY();
    assert [Entry(x, None), Entry(y, Some("x"))][..1] == [Entry(x, None)];
    assert [Entry(x, None)][..0] == [];
    assert AfterSecond()["x"].parentKey == None && AfterSecond()["y"].parentKey == None;
    assert MoveQueue([Entry(x, None)], AfterSecond()) == [];
  }

  /** With the corrected recording, the same third frames move y to the
      container when x goes, and move nothing when x[y] comes again. */
  lemma FixedScenario()
    ensures MoveQueue(Flatten(LabelY(), None), AfterSecondFixed()) == [("y", None)]
    ensures MoveQueue(Flatten(BoxX(), None), AfterSecondFixed()) == []
  {
    ScenarioFrames();
    var x, y := BoxX(), LabelY();
    assert [Entry(x, None), Entry(y, Some("x"))][..1] == [Entry(x, None)];
    assert [Entry(x, None)][..0] == [];
  }

  /** Distinct new keys make the update and creation queues free of repeats. */
  lemma QueuesNoDup(ne: seq<Entry>, ov: map<Key, PopulatedElement>)
    requires NoDup(Keys(ne))
    ensures NoDup(UpdateQueue(ne, ov))
    ensures NoDup(Keys(CreationQueue(ne, ov)))
  {
    UpdateQueueNoDup(ne, ov);
    CreationQueueNoDup(ne, ov);
  }

  lemma NoDupAppend<T>(a: seq<T>, k: T)
    requires NoDup(a) && k !in a
    ensures NoDup(a + [k])
  {
  }

  /** The last new key occurs nowhere before it. */
  lemma LastKeyFresh(ne: seq<Entry>)
    requires NoDup(Keys(ne)) && ne != []
    ensures NoDup(Keys(ne[..|ne| - 1]))
    ensures forall x :: x in ne[..|ne| - 1] ==> x.elem.key != ne[|ne| - 1].elem.key
  {
    assert Keys(ne[..|ne| - 1]) == Keys(ne)[..|ne| - 1];
    forall x | x in ne[..|ne| - 1]
      ensures x.elem.key != ne[|ne| - 1].elem.key
    {
      var j :| 0 <= j < |ne| - 1 && ne[j] == x;
      assert Keys(ne)[j] != Keys(ne)[|ne| - 1];
    }
  }

  lemma {:induction false} UpdateQueueNoDup(ne: seq<Entry>, ov: map<Key, PopulatedElement>)
    requires NoDup(Keys(ne))
    ensures NoDup(UpdateQueue(ne, ov))
  {
    if ne != [] {
      var init := ne[..|ne| - 1];
      var x := ne[|ne| - 1];
      LastKeyFresh(ne);
      UpdateQueueNoDup(init, ov);
      UpdatedEntriesExact(init, ov);
      if x.elem.key in ov {
        KeysSnocNoDup(UpdatedEntries(init, ov), x);
      }
    }
  }

  lemma {:induction false} CreationQueueNoDup(ne: seq<Entry>, ov: map<Key, PopulatedElement>)
    requires NoDup(Keys(ne))
    ensures NoDup(Keys(CreationQueue(ne, ov)))
  {
    if ne != [] {
      var init := ne[..|ne| - 1];
      var x := ne[|ne| - 1];
      LastKeyFresh(ne);
      CreationQueueNoDup(init, ov);
      CreationQueueExact(init, ov);
      if x.elem.key !in ov {
        KeysSnocNoDup(CreationQueue(init, ov), x);
      }
    }
  }

  /** Appending an entry whose key is new keeps the keys distinct. */
  lemma KeysSnocNoDup(es: seq<Entry>, x: Entry)
    requires NoDup(Keys(es))
    requires forall y :: y in es ==> y.elem.key != x.elem.key
    ensures NoDup(Keys(es + [x]))
  {
    assert Keys(es + [x]) == Keys(es) + [x.elem.key];
    forall j | 0 <= j < |es|
      ensures Keys(es)[j] != x.elem.key
    {
      assert es[j] in es;
    }
    NoDupAppend(Keys(es), x.elem.key);
  }

  /** With distinct new keys, every move of a key targets that key's new parent. */
  lemma MoveTargetsUnique(ne: seq<Entry>, ov: map<Key, PopulatedElement>)
    requires NoDup(Keys(ne))
    ensures forall m, x :: m in MoveQueue(ne, ov) && x in ne && m.0 == x.elem.key ==> m.1 == x.parentKey
  {
    MoveQueueExact(ne, ov);
    forall m, x | m in MoveQueue(ne, ov) && x in ne && m.0 == x.elem.key
      ensures m.1 == x.parentKey
    {
      var kp := KeyParentPairs(ne);
      var j :| 0 <= j < |kp| && kp[j] == m;
      var i :| 0 <= i < |ne| && ne[i] == x;
      assert Keys(ne)[i] == Keys(ne)[j];
    }
  }
}
