# Hand-mesh pool of the 3D hand-tracking renderer

The program shows a webcam feed. For every hand the pose model detects, it
draws a 3D skeleton: 21 joint spheres and 20 bone cylinders, using the fixed
bone table in `logic.js`. It keeps a pool of these hand visuals. Each frame
the renderer does three things:

- It grows the pool to the number of detected hands. A new hand takes its
  sphere colour from a four-colour palette by pool index, and its meshes are
  added to the scene.
- It shows the first `n` pooled hands and hides the rest.
- It moves the spheres of each detected hand to its landmarks and stretches
  every bone between its two spheres.

The model has three modules:

- `Skeleton` (`skeleton.dfy`) holds the bone table and its structure. The
  table has 20 bones and every index in it is a joint. Every joint other than
  the wrist ends exactly one bone, and the bones form a tree rooted at the
  wrist.
- `PoolSpec` (`pool_spec.dfy`) describes the pool as values:
  - a hand is the list of its mesh states (shape, colour, visibility, pose);
  - growing, hiding, placing and a whole frame are functions on those values;
  - lemmas prove growth, show/hide and placement properties.
- `HandPool` (`hand_pool.dfy`) is the imperative pool as the renderer holds
  it:
  - `Mesh` objects are shared between the scene list and the pool's hand
    records, and are updated in place;
  - `Pool` holds the `hands` and `scene` sequences;
  - each method is proved to change the meshes exactly as the matching
    `PoolSpec` function says, through the abstraction `Pool.View()`.

## Model

| member | source | states |
|---|---|---|
| Skeleton.BoneEndsAreSuccessors | logic.js:8-29 | the table lists 20 = 21 − 1 bones; bone `i` ends at joint `i + 1` and starts at a smaller joint |
| Skeleton.BonesIndexJoints | logic.js:8-29 | the table has 20 entries and both indices of every bone are landmark indices in 0..20, so `hand.spheres[start]`/`[end]` are always in range |
| Skeleton.EachJointEndsOneBone | logic.js:8-29 | the set of bones ending at joint `j` is empty for the wrist and exactly `{j − 1}` for every other joint (cardinality 0 or 1) |
| Skeleton.Parent | logic.js:8-29 | each non-wrist joint `j` has a parent `p < j` with `(p, j)` a bone of the table |
| Skeleton.PathToWrist | logic.js:8-29 | from every joint a chain of bones leads back to the wrist, so the bones form a tree rooted at joint 0 |
| PoolSpec.NewHandShape | logic.js:71-91 | a new hand has 21 sphere meshes in the sphere colour and 20 cylinder meshes in the bone colour, all visible and at rest |
| PoolSpec.SlotColorCycles | logic.js:98-99 | the sphere colour of pool index `k` is `colors[k % 4]`: always a palette colour, periodic with period 4, and magenta, green, yellow, cyan for indices 0-3 |
| PoolSpec.GrowLength | logic.js:97-100 | growing to `n` leaves `max(old length, n)` hands: the pool never shrinks |
| PoolSpec.GrowAppends | logic.js:97-100 | growing keeps the old hands as a prefix and the hand at every new index `k` is a fresh hand coloured `colors[k % 4]` with the default bone colour |
| PoolSpec.GrowLarge | logic.js:97 | a pool already holding at least `n` hands is not changed by growing to `n` |
| PoolSpec.GrowPreservesShape | logic.js:97-100 | growing keeps every hand at 21 spheres and 20 bones in the colours of its index |
| PoolSpec.HideSetsVisibility | logic.js:103-107 | after the visibility pass every sphere and bone of hand `i` is visible exactly when `i < n`; shape, colour and pose are unchanged and no hand is added or removed |
| PoolSpec.HidePreservesShape | logic.js:103-107 | the visibility pass keeps every hand's mesh counts and colours |
| PoolSpec.HideIdempotent | logic.js:103-107 | running the visibility pass twice with the same count gives the same pool as once |
| PoolSpec.GrowAndHideIdempotent | logic.js:97-107 | growing and hiding twice with the same count gives the same pool as once |
| PoolSpec.RunSize | logic.js:97-100 | after a run of frames the pool holds as many hands as the largest count seen (or its starting size), never fewer than it started with |
| PoolSpec.TwoOneTwo | logic.js:97-107 | with 2, then 1, then 2 detections the pool stays at 2 hands, in the middle frame every sphere and bone of the second hand is hidden and every mesh of the first is shown, and the last frame reuses the hands of the first |
| PoolSpec.StretchBonesAt | logic.js:125-137 | bone `i` takes its pose from spheres `bones[i][0]` and `bones[i][1]` of the same hand; spheres and visibility are left alone |
| PoolSpec.PlaceHandLayout | logic.js:114-143 | placing a hand puts sphere `k` at landmark `k` for every given landmark, leaves spheres beyond the landmark count where they were, stretches each bone between its two (new) joint spheres and changes no colour or visibility |
| PoolSpec.PlaceTouchesOnlyPredicted | logic.js:110-112 | the update writes only hands `0..|predictions|)`; every hand at or beyond the count is untouched, and no mesh changes visibility or colour |
| PoolSpec.PlaceHandIdempotent | logic.js:114-143 | placing the same landmarks twice gives the same hand as once |
| PoolSpec.EmptyFrame | logic.js:96-143 | a frame with no detections hides every pooled mesh and moves none |
| PoolSpec.FrameIdempotent | logic.js:96-143 | a frame keeps the pool well shaped, and drawing the same predictions twice gives the same pool as once |
| HandPool.Mesh.constructor | logic.js:77 | a new mesh has the given shape and colour, is visible and sits at rest |
| HandPool.Pool.constructor | logic.js:5 | the pool starts with no hands and no meshes in the scene |
| HandPool.Pool.ViewShaped | logic.js:97-100 | every hand of a valid pool has 21 spheres in the colour of its index and 20 bones in the default bone colour |
| HandPool.Pool.CreateHandMeshes | logic.js:71-91 | makes 21 fresh sphere meshes and 20 fresh cylinder meshes, appends them (spheres, then bones) to the scene, so the scene grows by exactly 41, and returns them as a hand equal to `NewHand(color, boneColor)` |
| HandPool.SceneSize | logic.js:76-88 | in a valid pool the scene holds exactly 41 meshes per pooled hand |
| HandPool.InvariantAppend | logic.js:97-100 | appending a newly made hand keeps the pool invariant (scene is the concatenation of all hands' meshes, every hand tagged with its slot and colours) |
| HandPool.Pool.AddHand | logic.js:98-99 | appends one hand coloured by its index, whose meshes are appended to the scene; old hands are kept and the view gains exactly `NewHand(colors[len % 4], 0x00ffff)` |
| HandPool.Pool.GrowTo | logic.js:97-100 | afterwards `|hands| == max(old, n)`, old hands and old scene entries are a prefix, and the view equals `Grow(old view, n)` |
| HandPool.Pool.HideExtra | logic.js:103-107 | changes no hand or scene list and sets the view to `Hide(old view, n)`: every mesh of hand `i` is visible iff `i < n` |
| HandPool.SetHandVisible | logic.js:105-106 | sets the visibility of all 41 meshes of one hand to `v` and nothing else |
| HandPool.Pool.UpdateHands | logic.js:110-143 | changes no hand or scene list and sets the view to `Place(old view, predictions)` |
| HandPool.PlaceHandMeshes | logic.js:114-143 | one hand's meshes end as `PlaceHand(old state, landmarks)` |
| HandPool.PositionSpheres | logic.js:114-122 | sphere `k` is placed at landmark `k` for each given landmark; other spheres and all bones are unchanged |
| HandPool.OrientBones | logic.js:125-143 | every bone is stretched between the current poses of its two joint spheres; spheres are unchanged |
| HandPool.Pool.Draw | logic.js:96-143 | one frame: the pool grows to `max(old, n)` keeping old hands and scene entries as a prefix, the scene holds 41 meshes per hand, and the view equals `Frame(old view, predictions)` |

## Left out

- The p5 canvas, the webcam capture and the `image` call that draws the video frame are not modelled.
- The handpose model, its loading and its asynchronous `predict` callback are not modelled; the predictions of the current frame are a parameter of `Draw`.
- Scene set-up (camera, directional and ambient light, axes and grid helpers, renderer) and `renderer.render` are not modelled. The `scene` field holds only the pool's meshes, not the lights and helpers added at start-up.
- HandPool.PositionSpheres: records which landmark a sphere was placed at (`Placed(landmark)`), not the projected coordinates. The mirroring, normalising, scale 300 and depth `−z·5` are floating-point arithmetic.
- HandPool.OrientBones: records that a bone spans the poses of its two joint spheres (`Spanning`), not the midpoint, the `distance / 2` scale and the quaternion rotation. These are floating-point computations in the 3D library, and they are a fixed function of the two sphere positions.
- Geometry and material objects (sphere radius 5, cylinder radius 2, segment counts) are not modelled; a mesh keeps only its shape and material colour. Sharing of one geometry and one material among the meshes of a hand is not modelled.
- A prediction with more than 21 landmarks is excluded by a precondition (`LandmarksFit`). The source would index past the 21 spheres and fail on `undefined.position`.
- A prediction with fewer than 21 landmarks is modelled as the source does it: the extra spheres keep their previous positions.
- Growth and visibility are written inline in `draw`; the model keeps them as separate steps (`GrowTo`, `HideExtra`, `UpdateHands`) called in the same order. The visibility flag lives on each mesh, as in the code, rather than on a hand record.
