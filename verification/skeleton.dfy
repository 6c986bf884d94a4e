/**
 * The static hand skeleton: 21 landmarks per detected hand (0 is the wrist,
 * 1-4 thumb, 5-8 index, 9-12 middle, 13-16 ring, 17-20 pinky) and the table of
 * 20 bones, each a (start, end) pair of landmark indices, that the renderer
 * draws as cylinders between the joint spheres.
 */
module Skeleton {

  /** Landmarks per detected hand, and so spheres per hand visual. */
  const JointCount: nat := 21

  /** One finger segment: it is drawn from joint `start` to joint `end`. */
  datatype Bone = Bone(start: nat, end: nat)

  /** The bone adjacency table, in the order the renderer walks it. */
  const Bones: seq<Bone> := [
    Bone(0, 1), Bone(1, 2), Bone(2, 3), Bone(3, 4),         // thumb
    Bone(0, 5), Bone(5, 6), Bone(6, 7), Bone(7, 8),         // index
    Bone(0, 9), Bone(9, 10), Bone(10, 11), Bone(11, 12),    // middle
    Bone(0, 13), Bone(13, 14), Bone(14, 15), Bone(15, 16),  // ring
    Bone(0, 17), Bone(17, 18), Bone(18, 19), Bone(19, 20)   // pinky
  ]

  predicate IsJoint(j: int) {
    0 <= j < JointCount
  }

  /** The table lists its bones so that bone `i` ends at joint `i + 1`,
      and every bone starts at a joint with a smaller index. */
  lemma BoneEndsAreSuccessors()
    ensures |Bones| == JointCount - 1
    ensures forall i :: 0 <= i < |Bones| ==> Bones[i].end == i + 1 && Bones[i].start < Bones[i].end
  {
  }

  /** The table has 20 entries and every index in it is a landmark index,
      so both ends of every bone are valid indices into a hand's 21 spheres. */
  lemma BonesIndexJoints()
    ensures |Bones| == 20
    ensures forall i :: 0 <= i < |Bones| ==> IsJoint(Bones[i].start) && IsJoint(Bones[i].end)
  {
    BoneEndsAreSuccessors();
  }

  /** Every joint except the wrist is the `end` of exactly one bone (the one
      with index `j - 1`), and the wrist is the end of none. */
  lemma EachJointEndsOneBone(j: nat)
    requires j < JointCount
    ensures j == 0 ==> (set i | 0 <= i < |Bones| && Bones[i].end == j) == {}
    ensures j != 0 ==> (set i | 0 <= i < |Bones| && Bones[i].end == j) == {j - 1}
    ensures |set i | 0 <= i < |Bones| && Bones[i].end == j| == if j == 0 then 0 else 1
  {
    BoneEndsAreSuccessors();
    var ends := set i | 0 <= i < |Bones| && Bones[i].end == j;
    if j == 0 {
      assert ends == {};
    } else {
      assert j - 1 in ends;
      assert ends == {j - 1};
    }
  }

  /** The joint a non-wrist joint hangs from: the start of the one bone ending at it. */
  function Parent(j: nat): (p: nat)
    requires 1 <= j < JointCount
    ensures p < j
    ensures Bone(p, j) in Bones
  {
    BoneEndsAreSuccessors();
    assert Bones[j - 1] == Bone(Bones[j - 1].start, j);
    Bones[j - 1].start
  }

  /** The chain of joints from `j` back to the wrist, following bones. Its
      existence for every joint shows the bones form a tree rooted at joint 0. */
  function PathToWrist(j: nat): (path: seq<nat>)
    requires j < JointCount
    ensures |path| >= 1 && path[0] == j && path[|path| - 1] == 0
    ensures forall k :: 0 <= k < |path| ==> IsJoint(path[k])
    ensures forall k :: 0 <= k < |path| - 1 ==> Bone(path[k + 1], path[k]) in Bones
    decreases j
  {
    if j == 0 then [0] else [j] + PathToWrist(Parent(j))
  }
}
