/**
 * The hand visual pool as the renderer holds it: mesh objects shared between
 * the scene and the pool's hand records, updated in place every frame. Each
 * method is proved to change the meshes exactly as the matching function of
 * PoolSpec changes the pool's value (`Pool.View()`).
 */
module HandPool {
  import opened Skeleton
  import opened PoolSpec

  /** A sphere or cylinder mesh of the scene. Its material colour and geometry
      are fixed when it is made; its visibility and its placement change.
      `slot` (the pool index of its hand) and `part` (its place in the hand:
      sphere `k` is part `k`, bone `i` is part `JointCount + i`) are proof-only
      tags that tell meshes apart. */
  class Mesh {
    const shape: Shape
    const color: int
    ghost const slot: nat
    ghost const part: nat
    var visible: bool
    var pose: Pose

    /** A new mesh is visible and at the scene origin. */
    constructor (shape: Shape, color: int, ghost slot: nat, ghost part: nat)
      ensures this.shape == shape && this.color == color
      ensures this.slot == slot && this.part == part
      ensures visible && pose == Rest
    {
      this.shape := shape;
      this.color := color;
      this.slot := slot;
      this.part := part;
      visible := true;
      pose := Rest;
    }

    ghost function State(): MeshState
      reads this
    {
      MeshState(shape, color, visible, pose)
    }
  }

  /** One pooled hand: its joint spheres and its bone cylinders. */
  datatype Hand = Hand(spheres: seq<Mesh>, bones: seq<Mesh>)

  ghost function Parts(h: Hand): set<Mesh> {
    (set m | m in h.spheres) + (set m | m in h.bones)
  }

  ghost function States(ms: seq<Mesh>): (r: seq<MeshState>)
    reads ms
    ensures |r| == |ms| && forall k :: 0 <= k < |ms| ==> r[k] == ms[k].State()
  {
    seq(|ms|, k requires 0 <= k < |ms| reads ms => ms[k].State())
  }

  ghost function HandView(h: Hand): HandState
    reads h.spheres, h.bones
  {
    HandState(States(h.spheres), States(h.bones))
  }

  /** `h` has one sphere per joint and one cylinder per bone, each tagged with
      its own part, so no two of them are the same mesh. */
  ghost predicate Tagged(h: Hand) {
    && |h.spheres| == JointCount
    && |h.bones| == |Bones|
    && (forall k :: 0 <= k < |h.spheres| ==> h.spheres[k].part == k)
    && (forall k :: 0 <= k < |h.bones| ==> h.bones[k].part == JointCount + k)
  }

  /** `h` is the hand visual of pool slot `i`: tagged with slot `i` and
      coloured for it. */
  ghost predicate Allocated(h: Hand, i: nat) {
    && Tagged(h)
    && (forall k :: 0 <= k < |h.spheres| ==>
          h.spheres[k].slot == i && h.spheres[k].shape == Sphere && h.spheres[k].color == SlotColor(i))
    && (forall k :: 0 <= k < |h.bones| ==>
          h.bones[k].slot == i && h.bones[k].shape == Cylinder && h.bones[k].color == DefaultBoneColor)
  }

  /** The meshes of the hands, in the order the pool added them to the scene. */
  ghost function Flatten(hs: seq<Hand>): seq<Mesh>
    decreases |hs|
  {
    if hs == [] then [] else Flatten(hs[..|hs| - 1]) + hs[|hs| - 1].spheres + hs[|hs| - 1].bones
  }

  lemma FlattenAppend(hs: seq<Hand>, h: Hand)
    ensures Flatten(hs + [h]) == Flatten(hs) + h.spheres + h.bones
  {
    assert (hs + [h])[..|hs|] == hs;
  }

  /** The pool invariant: hand `i` is laid out and coloured for slot `i`, its
      meshes are in `repr`, and the scene holds the meshes of the hands in
      allocation order. */
  ghost predicate PoolInvariant(hs: seq<Hand>, scene: seq<Mesh>, repr: set<Mesh>) {
    && scene == Flatten(hs)
    && (forall i :: 0 <= i < |hs| ==> Allocated(hs[i], i))
    && (forall i :: 0 <= i < |hs| ==> Parts(hs[i]) <= repr)
  }

  /** Appending a hand allocated for the next slot, and adding its meshes to
      the scene, keeps the pool invariant. */
  lemma InvariantAppend(hs: seq<Hand>, scene: seq<Mesh>, repr: set<Mesh>, h: Hand)
    requires PoolInvariant(hs, scene, repr) && Allocated(h, |hs|)
    ensures PoolInvariant(hs + [h], scene + h.spheres + h.bones, repr + Parts(h))
  {
    FlattenAppend(hs, h);
  }

  /** The scene holds exactly 41 meshes per pooled hand: 21 spheres and 20 bones. */
  lemma {:induction false} SceneSize(hs: seq<Hand>, scene: seq<Mesh>, repr: set<Mesh>)
    requires PoolInvariant(hs, scene, repr)
    ensures |scene| == 41 * |hs|
    decreases |hs|
  {
    if hs != [] {
      var prefix := hs[..|hs| - 1];
      assert PoolInvariant(prefix, Flatten(prefix), repr) by {
        forall i | 0 <= i < |prefix| ensures Allocated(prefix[i], i) && Parts(prefix[i]) <= repr {
          assert prefix[i] == hs[i];
        }
      }
      SceneSize(prefix, Flatten(prefix), repr);
    }
  }

  /** The pool of hand visuals and the meshes it has added to the scene. */
  class Pool {
    var hands: seq<Hand>
    var scene: seq<Mesh>
    /** The meshes the pool may change: it contains every mesh of every
        pooled hand (the invariant asks for inclusion, not equality). */
    ghost var Repr: set<Mesh>

    ghost predicate Valid()
      reads this
    {
      PoolInvariant(hands, scene, Repr)
    }

    /** The pool as a value: the state of every mesh of every hand. */
    ghost function View(): (v: seq<HandState>)
      requires Valid()
      reads this, Repr
      ensures |v| == |hands|
      ensures forall i :: 0 <= i < |hands| ==> v[i] == HandView(hands[i])
    {
      seq(|hands|, i requires 0 <= i < |hands| && Parts(hands[i]) <= Repr reads this, Repr => HandView(hands[i]))
    }

    /** Every pooled hand has the layout and colours of its pool index. */
    lemma ViewShaped()
      requires Valid()
      ensures PoolShaped(View())
    {
    }

    constructor ()
      ensures Valid() && hands == [] && scene == [] && Repr == {}
    {
      hands := [];
      scene := [];
      Repr := {};
    }

    /** Make the meshes of one hand: 21 spheres in `color`, then one cylinder
        per bone in `boneColor`, each added to the scene as it is made. The
        hand is meant for pool slot `slot`. */
    method CreateHandMeshes(ghost slot: nat, color: int := DefaultSphereColor, boneColor: int := DefaultBoneColor)
      returns (hand: Hand)
      modifies this
      ensures hands == old(hands) && Repr == old(Repr)
      ensures scene == old(scene) + hand.spheres + hand.bones
      ensures |scene| == |old(scene)| + 41
      ensures forall m :: m in Parts(hand) ==> fresh(m)
      ensures color == SlotColor(slot) && boneColor == DefaultBoneColor ==> Allocated(hand, slot)
      ensures |hand.spheres| == JointCount && |hand.bones| == |Bones|
      ensures HandView(hand) == NewHand(color, boneColor)
    {
      var spheres: seq<Mesh> := [];
      for i := 0 to JointCount
        invariant |spheres| == i
        invariant hands == old(hands) && Repr == old(Repr) && scene == old(scene) + spheres
        invariant forall k :: 0 <= k < i ==>
                    fresh(spheres[k]) && spheres[k].slot == slot && spheres[k].part == k &&
                    spheres[k].State() == MeshState(Sphere, color, true, Rest)
      {
        var s := new Mesh(Sphere, color, slot, i);
        scene := scene + [s];
        spheres := spheres + [s];
      }
      var bones: seq<Mesh> := [];
      for i := 0 to |Bones|
        invariant |bones| == i
        invariant hands == old(hands) && Repr == old(Repr) && scene == old(scene) + spheres + bones
        invariant forall k :: 0 <= k < JointCount ==>
                    fresh(spheres[k]) && spheres[k].slot == slot && spheres[k].part == k &&
                    spheres[k].State() == MeshState(Sphere, color, true, Rest)
        invariant forall k :: 0 <= k < i ==>
                    fresh(bones[k]) && bones[k].slot == slot && bones[k].part == JointCount + k &&
                    bones[k].State() == MeshState(Cylinder, boneColor, true, Rest)
      {
        var b := new Mesh(Cylinder, boneColor, slot, JointCount + i);
        scene := scene + [b];
        bones := bones + [b];
      }
      hand := Hand(spheres, bones);
      assert HandView(hand).spheres == NewHand(color, boneColor).spheres;
      assert HandView(hand).bones == NewHand(color, boneColor).bones;
    }

    /** One turn of the grow loop: allocate the hand for the next pool index,
        in that index's palette colour, and append it to the pool. */
    method AddHand()
      requires Valid()
      modifies this
      ensures Valid()
      ensures |hands| == |old(hands)| + 1 && hands[..|old(hands)|] == old(hands)
      ensures scene == old(scene) + hands[|hands| - 1].spheres + hands[|hands| - 1].bones
      ensures old(Repr) <= Repr && fresh(Repr - old(Repr))
      ensures View() == old(View()) + [NewHand(SlotColor(|old(hands)|), DefaultBoneColor)]
    {
      ghost var expected := View() + [NewHand(SlotColor(|hands|), DefaultBoneColor)];
      var hand := CreateHandMeshes(|hands|, SlotColor(|hands|));
      InvariantAppend(hands, old(scene), Repr, hand);
      hands := hands + [hand];
      Repr := Repr + Parts(hand);
      assert hands[..|old(hands)|] == old(hands);
      forall i | 0 <= i < |old(hands)|
        ensures HandView(hands[i]) == expected[i]
      {
        HandViewUnchanged(hands[i]);
      }
      assert HandView(hand) == expected[|hands| - 1];
      ghost var now := View();
      forall i | 0 <= i < |hands|
        ensures now[i] == expected[i]
      {
        if i < |hands| - 1 {
          assert now[i] == HandView(hands[i]);
        }
      }
    }

    /** Allocate hands until there is one per prediction; each new hand takes
        the palette colour of its pool index. */
    method GrowTo(n: nat)
      requires Valid()
      modifies this
      ensures Valid()
      ensures |hands| == Max(|old(hands)|, n)
      ensures hands[..|old(hands)|] == old(hands)
      ensures |old(scene)| <= |scene| && scene[..|old(scene)|] == old(scene)
      ensures old(Repr) <= Repr && fresh(Repr - old(Repr))
      ensures View() == Grow(old(View()), n)
    {
      while |hands| < n
        invariant Valid()
        invariant |old(hands)| <= |hands| && (|hands| <= n || hands == old(hands))
        invariant hands[..|old(hands)|] == old(hands)
        invariant |old(scene)| <= |scene| && scene[..|old(scene)|] == old(scene)
        invariant old(Repr) <= Repr && fresh(Repr - old(Repr))
        invariant Grow(View(), n) == Grow(old(View()), n)
        decreases n - |hands|
      {
        ghost var prior, shown := hands, scene;
        AddHand();
        assert hands[..|old(hands)|] == prior[..|old(hands)|];
        assert scene[..|old(scene)|] == shown[..|old(scene)|];
      }
      GrowLength(old(View()), n);
    }

    /** The visibility pass: every mesh of hand `i` becomes visible exactly
        when `i < n`, whatever it was; nothing is moved or deallocated. */
    method HideExtra(n: nat)
      requires Valid()
      modifies Repr
      ensures Valid() && hands == old(hands) && scene == old(scene) && Repr == old(Repr)
      ensures View() == Hide(old(View()), n)
    {
      for i := 0 to |hands|
        invariant forall j :: 0 <= j < |hands| ==>
                    HandView(hands[j]) == if j < i then WithVisible(old(View())[j], j < n) else old(View())[j]
      {
        label Before:
        SetHandVisible(hands[i], i < n);
        forall j | 0 <= j < |hands| && j != i
          ensures HandView(hands[j]) == old@Before(HandView(hands[j]))
        {
          Disjoint(hands[i], i, hands[j], j);
          HandViewUnchanged@Before(hands[j]);
        }
      }
      ghost var v := View();
      assert forall j :: 0 <= j < |hands| ==> v[j] == Hide(old(View()), n)[j];
    }

    /** The per-frame update: hand `h` of the pool is placed from prediction
        `h`, for each prediction; hands at or beyond the prediction count are
        not touched. */
    method UpdateHands(preds: seq<Prediction>)
      requires Valid() && |preds| <= |hands| && LandmarksFit(preds)
      modifies Repr
      ensures Valid() && hands == old(hands) && scene == old(scene) && Repr == old(Repr)
      ensures PoolShaped(old(View())) && View() == Place(old(View()), preds)
    {
      for h := 0 to |preds|
        invariant forall j :: 0 <= j < |hands| ==>
                    HandView(hands[j]) == if j < h then PlaceHand(old(View())[j], preds[j].landmarks) else old(View())[j]
      {
        label Before:
        PlaceHandMeshes(hands[h], preds[h].landmarks);
        forall j | 0 <= j < |hands| && j != h
          ensures HandView(hands[j]) == old@Before(HandView(hands[j]))
        {
          Disjoint(hands[h], h, hands[j], j);
          HandViewUnchanged@Before(hands[j]);
        }
      }
      ghost var v := View();
      assert forall j :: 0 <= j < |hands| ==> v[j] == Place(old(View()), preds)[j];
    }

    /** One frame of the renderer's pool handling: grow the pool to the
        prediction count, show exactly the first that many hands, and place
        them from their landmarks. */
    method Draw(preds: seq<Prediction>)
      requires Valid() && LandmarksFit(preds)
      modifies this, Repr
      ensures Valid()
      ensures |hands| == Max(|old(hands)|, |preds|) && hands[..|old(hands)|] == old(hands)
      ensures |old(scene)| <= |scene| && scene[..|old(scene)|] == old(scene)
      ensures |scene| == 41 * |hands|
      ensures old(Repr) <= Repr && fresh(Repr - old(Repr))
      ensures PoolShaped(old(View())) && View() == Frame(old(View()), preds)
    {
      ViewShaped();
      GrowTo(|preds|);
      HideExtra(|preds|);
      UpdateHands(preds);
      SceneSize(hands, scene, Repr);
    }
  }

  /** A hand whose meshes were not changed looks the same as before. */
  twostate lemma HandViewUnchanged(h: Hand)
    requires forall m :: m in h.spheres || m in h.bones ==> unchanged(m)
    ensures HandView(h) == old(HandView(h))
  {
    forall k | 0 <= k < |h.spheres| ensures States(h.spheres)[k] == old(States(h.spheres))[k] {
      assert h.spheres[k] in h.spheres;
    }
    forall k | 0 <= k < |h.bones| ensures States(h.bones)[k] == old(States(h.bones))[k] {
      assert h.bones[k] in h.bones;
    }
  }

  /** Meshes of two different pool slots are different objects. */
  lemma Disjoint(a: Hand, i: nat, b: Hand, j: nat)
    requires Allocated(a, i) && Allocated(b, j) && i != j
    ensures forall m :: m in a.spheres || m in a.bones ==> m !in b.spheres && m !in b.bones
  {
  }

  /** Set the visibility of every mesh of one hand, spheres first. */
  method SetHandVisible(hand: Hand, v: bool)
    requires Tagged(hand)
    modifies hand.spheres, hand.bones
    ensures HandView(hand) == WithVisible(old(HandView(hand)), v)
  {
    ghost var before := HandView(hand);
    for k := 0 to |hand.spheres|
      invariant forall j :: 0 <= j < JointCount ==>
                  hand.spheres[j].State() == if j < k then before.spheres[j].(visible := v) else before.spheres[j]
      invariant forall j :: 0 <= j < |Bones| ==> hand.bones[j].State() == before.bones[j]
    {
      hand.spheres[k].visible := v;
    }
    for k := 0 to |hand.bones|
      invariant forall j :: 0 <= j < JointCount ==> hand.spheres[j].State() == before.spheres[j].(visible := v)
      invariant forall j :: 0 <= j < |Bones| ==>
                  hand.bones[j].State() == if j < k then before.bones[j].(visible := v) else before.bones[j]
    {
      hand.bones[k].visible := v;
    }
    ghost var target := WithVisible(before, v);
    assert HandView(hand).spheres == target.spheres;
    assert HandView(hand).bones == target.bones;
  }

  /** Place one hand's meshes: spheres first, then the bones between them. */
  method PlaceHandMeshes(hand: Hand, lms: seq<Landmark>)
    requires Tagged(hand) && |lms| <= JointCount
    modifies hand.spheres, hand.bones
    ensures HandView(hand) == PlaceHand(old(HandView(hand)), lms)
  {
    PositionSpheres(hand, lms);
    OrientBones(hand);
  }

  /** Put sphere `k` at (the projection of) landmark `k`, for each landmark. */
  method PositionSpheres(hand: Hand, lms: seq<Landmark>)
    requires Tagged(hand) && |lms| <= JointCount
    modifies hand.spheres
    ensures HandView(hand) == PlaceSpheres(old(HandView(hand)), lms)
  {
    ghost var before := HandView(hand);
    for k := 0 to |lms|
      invariant forall j :: 0 <= j < JointCount ==>
                  hand.spheres[j].State() == if j < k then before.spheres[j].(pose := Placed(lms[j])) else before.spheres[j]
      invariant forall j :: 0 <= j < |Bones| ==> hand.bones[j].State() == before.bones[j]
    {
      hand.spheres[k].pose := Placed(lms[k]);
    }
    ghost var target := PlaceSpheres(before, lms);
    assert HandView(hand).spheres == target.spheres;
    assert HandView(hand).bones == target.bones;
  }

  /** Stretch each bone cylinder between the two spheres the bone table names for it. */
  method OrientBones(hand: Hand)
    requires Tagged(hand)
    modifies hand.bones
    ensures HandView(hand) == StretchBones(old(HandView(hand)))
  {
    ghost var before := HandView(hand);
    ghost var target := StretchBones(before);
    for i := 0 to |Bones|
      invariant forall j :: 0 <= j < JointCount ==> hand.spheres[j].State() == before.spheres[j]
      invariant forall j :: 0 <= j < |Bones| ==>
                  hand.bones[j].State() == if j < i then target.bones[j] else before.bones[j]
    {
      var bone := Bones[i];
      StretchBonesAt(before, i);
      hand.bones[i].pose := Spanning(hand.spheres[bone.start].pose, hand.spheres[bone.end].pose);
      assert hand.bones[i].State() == target.bones[i];
    }
    StretchBonesAt(before, 0);
    assert HandView(hand).spheres == target.spheres;
    assert HandView(hand).bones == target.bones;
  }
}
