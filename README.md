# PANDORA rescue-robot core, modelled in Dafny

This project models three sequential pieces of the PANDORA rescue-robot software and proves properties of them:

1. **The Landolt-C detector's discrete image core.** The detector finds ring markers with a gap in camera frames. The model covers its per-frame state (`LandoltC.LandoltCDetector`, whose fields mirror the private members of the C++ class except `_coloredContours` and `_mask`, which belong to the unmodelled `applyMask`, and `params`, of which only the fusion proximity `fusionProximity` is kept), the vote grid, the digital line it votes along, the vote-threshold step of centre finding, the 8-neighbour count that classifies skeleton pixels, Zhang–Suen thinning in place on a binary matrix (`array2<bool>`), the per-frame reset and the fusion of C fragments into one detection. The detector model follows the declarations and doc comments of `landoltc_detector.h`; its operation bodies are reconstructions from those comments, the published Zhang–Suen algorithm (T. Y. Zhang and C. Y. Suen, "A fast parallel algorithm for thinning digital patterns", CACM 27(3), 1984) and the modelling choices listed under "## Left out".
2. **The FSM agent's decision logic** (`FsmAgent.Agent`). This is a class whose handlers update the FSM state fields: the move-base retry counter, the current target, the available targets, "timer running" (which the modelled handlers only ever clear) and the operator's verdict. "Base converged" is a field the modelled handlers only read. Every FSM trigger, dispatcher event and action-client request a handler issues is appended to the field `actions`. The robot's global mode and the transform/distance lookup are parameters.
3. **The RGB hole post-processor** (`RgbPostProcessing.PostProcess`). It converts a stamped POI list into a region-of-interest message in place, copying the header.

Modules: `Options`, `Geometry` and `Grids` (shared types, matrix snapshots, foreground count); `ZhangSuen` (thinning specification); `DigitalLine`; `VoteCenters`; `Neighbourhood`; `Fusion`; `LandoltC` (the detector class); `FsmAgent`; `RgbPostProcessing`.

## Model

| member | source | states |
|---|---|---|
| `LandoltC.LandoltCDetector.constructor` | pandora_vision/pandora_vision_landoltc/include/pandora_vision_landoltc/landoltc_2d/landoltc_detector.h:189-214 | a new detector has the given thresholds, a fresh zero vote grid of the given size and every vector empty |
| `LandoltC.LandoltCDetector.RasterizeLine` | pandora_vision/pandora_vision_landoltc/include/pandora_vision_landoltc/landoltc_2d/landoltc_detector.h:75-81 | each vote-grid cell gains exactly as many votes as the segment from A to B passes through it, and no other cell changes; both endpoints must lie in the grid |
| `DigitalLine.LineInBox` | pandora_vision/pandora_vision_landoltc/include/pandora_vision_landoltc/landoltc_2d/landoltc_detector.h:75-81 | every point of the digital segment lies inside the bounding box of A and B |
| `DigitalLine.LineEnds` | pandora_vision/pandora_vision_landoltc/include/pandora_vision_landoltc/landoltc_2d/landoltc_detector.h:75-81 | the segment starts at A and ends at B, so both endpoints are drawn |
| `DigitalLine.LineDistinct` | pandora_vision/pandora_vision_landoltc/include/pandora_vision_landoltc/landoltc_2d/landoltc_detector.h:75-81 | no point of the segment repeats, so one call adds at most one vote per cell |
| `LandoltC.LandoltCDetector.FindCenters` | pandora_vision/pandora_vision_landoltc/include/pandora_vision_landoltc/landoltc_2d/landoltc_detector.h:83-91 | `rows`/`cols` must be the vote grid's size; the centres gain, row by row, exactly the cells whose votes exceed `threshold`, and nothing else changes |
| `VoteCenters.AboveSound` | pandora_vision/pandora_vision_landoltc/include/pandora_vision_landoltc/landoltc_2d/landoltc_detector.h:189-194 | every added centre lies inside the rows x cols grid and its vote count exceeds the integer threshold |
| `VoteCenters.AboveComplete` | pandora_vision/pandora_vision_landoltc/include/pandora_vision_landoltc/landoltc_2d/landoltc_detector.h:207-208 | every cell of the vote grid whose count exceeds the threshold is added as a centre |
| `LandoltC.LandoltCDetector.ThinningIter` | pandora_vision/pandora_vision_landoltc/include/pandora_vision_landoltc/landoltc_2d/landoltc_detector.h:116-122 | for iter 1 or 2, the image afterwards is the sub-iteration applied to the image as it was before the call: every deletion is decided from that snapshot |
| `LandoltC.LandoltCDetector.MarkDeletions` | pandora_vision/pandora_vision_landoltc/include/pandora_vision_landoltc/landoltc_2d/landoltc_detector.h:116-122 | the marker matrix is set exactly at the interior foreground pixels that pass the sub-iteration's tests on A, B and the two products |
| `LandoltC.LandoltCDetector.ClearMarked` | pandora_vision/pandora_vision_landoltc/include/pandora_vision_landoltc/landoltc_2d/landoltc_detector.h:116-122 | each pixel becomes its old value AND NOT the marker |
| `ZhangSuen.IterStepSub` | pandora_vision/pandora_vision_landoltc/include/pandora_vision_landoltc/landoltc_2d/landoltc_detector.h:116-122 | a sub-iteration only deletes foreground pixels and never sets one |
| `ZhangSuen.IterStepKeepsBorder` | pandora_vision/pandora_vision_landoltc/include/pandora_vision_landoltc/landoltc_2d/landoltc_detector.h:116-122 | a sub-iteration never changes a border pixel |
| `ZhangSuen.IterStepLocal` | pandora_vision/pandora_vision_landoltc/include/pandora_vision_landoltc/landoltc_2d/landoltc_detector.h:116-122 | a pixel's fate depends only on its 3x3 window of the pre-call image, so the scan order cannot matter |
| `ZhangSuen.PassShrinks` | pandora_vision/pandora_vision_landoltc/include/pandora_vision_landoltc/landoltc_2d/landoltc_detector.h:110-114 | a full pass yields a subset of its input, and a pass that changes the image strictly lowers the foreground count (the termination measure) |
| `ZhangSuen.ThinSub` | pandora_vision/pandora_vision_landoltc/include/pandora_vision_landoltc/landoltc_2d/landoltc_detector.h:110-114 | the thinned image's foreground is a subset of the input's |
| `ZhangSuen.ThinFixed` | pandora_vision/pandora_vision_landoltc/include/pandora_vision_landoltc/landoltc_2d/landoltc_detector.h:110-114 | on return, a further sub-iteration 1 plus sub-iteration 2 removes nothing |
| `ZhangSuen.ThinIdempotent` | pandora_vision/pandora_vision_landoltc/include/pandora_vision_landoltc/landoltc_2d/landoltc_detector.h:110-114 | thinning is idempotent: thin(thin(S)) == thin(S) |
| `ZhangSuen.ThinOfFixed` | pandora_vision/pandora_vision_landoltc/include/pandora_vision_landoltc/landoltc_2d/landoltc_detector.h:110-114 | an image that a pass leaves unchanged is its own skeleton |
| `LandoltC.LandoltCDetector.Thinning` | pandora_vision/pandora_vision_landoltc/include/pandora_vision_landoltc/landoltc_2d/landoltc_detector.h:110-114 | the in-place loop terminates with the thinned image, which is a subset of the input and a fixed point of a full pass |
| `LandoltC.LandoltCDetector.CopyImage` | pandora_vision/pandora_vision_landoltc/include/pandora_vision_landoltc/landoltc_2d/landoltc_detector.h:110-114 | the copy of the image kept before a pass is fresh, the same size and equal to the image |
| `LandoltC.LandoltCDetector.SameImage` | pandora_vision/pandora_vision_landoltc/include/pandora_vision_landoltc/landoltc_2d/landoltc_detector.h:110-114 | the no-change test of the thinning loop answers true exactly when the two images are equal |
| `LandoltC.PixelAt` | pandora_vision/pandora_vision_landoltc/include/pandora_vision_landoltc/landoltc_2d/landoltc_detector.h:150-157 | a linear pixel index names the row and column with row * cols + col == index and the column inside the matrix |
| `Neighbourhood.NeighbourCount` | pandora_vision/pandora_vision_landoltc/include/pandora_vision_landoltc/landoltc_2d/landoltc_detector.h:150-157 | the 8-connected neighbour count of a pixel is at most 8 |
| `Neighbourhood.NeighbourCountIsB` | pandora_vision/pandora_vision_landoltc/include/pandora_vision_landoltc/landoltc_2d/landoltc_detector.h:150-157 | for an interior pixel the 8-neighbour count equals the B(P1) count of the thinning test |
| `LandoltC.LandoltCDetector.CountNeighbours` | pandora_vision/pandora_vision_landoltc/include/pandora_vision_landoltc/landoltc_2d/landoltc_detector.h:150-157 | for an index inside the matrix, returns the count in 0..8 of set 8-neighbours of that pixel; it has no frame, so the image is only read |
| `LandoltC.LandoltCDetector.Find8Neighbours` | pandora_vision/pandora_vision_landoltc/include/pandora_vision_landoltc/landoltc_2d/landoltc_detector.h:150-157 | for an index inside the matrix, a pixel with exactly one neighbour is appended to the edge points and counted in `edges`; otherwise nothing changes; the image is only read |
| `LandoltC.LandoltCDetector.Clear` | pandora_vision/pandora_vision_landoltc/include/pandora_vision_landoltc/landoltc_2d/landoltc_detector.h:168-173 | the six per-frame vectors are empty; its frame leaves the reference contours, the vote grid, `edges` and the thresholds untouched |
| `LandoltC.LandoltCDetector.Fusion` | pandora_vision/pandora_vision_landoltc/include/pandora_vision_landoltc/landoltc_2d/landoltc_detector.h:175-180 | the detections become their fusion, which is no longer than before, and nothing else changes |
| `Fusion.FuseNoLonger` | pandora_vision/pandora_vision_landoltc/include/pandora_vision_landoltc/landoltc_2d/landoltc_detector.h:175-180 | fusion never increases the number of POIs |
| `Fusion.FuseKeepsCs` | pandora_vision/pandora_vision_landoltc/include/pandora_vision_landoltc/landoltc_2d/landoltc_detector.h:175-180 | the total number of C's is kept |
| `Fusion.FuseKeepsAngles` | pandora_vision/pandora_vision_landoltc/include/pandora_vision_landoltc/landoltc_2d/landoltc_detector.h:175-180 | every raw C ends up in exactly one fused POI: the multiset of all gap angles is the same before and after fusion |
| `Fusion.FuseSeparated` | pandora_vision/pandora_vision_landoltc/include/pandora_vision_landoltc/landoltc_2d/landoltc_detector.h:175-180 | after fusion no two POIs have centres within the proximity window |
| `Fusion.FuseCentersFromInput` | pandora_vision/pandora_vision_landoltc/include/pandora_vision_landoltc/landoltc_2d/landoltc_detector.h:175-180 | every fused POI's centre is the centre of one of the raw POIs |
| `Fusion.FuseSingle` | pandora_vision/pandora_vision_landoltc/include/pandora_vision_landoltc/landoltc_2d/landoltc_detector.h:175-180 | a single POI passes through unchanged |
| `Fusion.FusePair` | pandora_vision/pandora_vision_landoltc/include/pandora_vision_landoltc/landoltc_2d/landoltc_detector.h:175-180 | two POIs fuse into one exactly when their centres are near; otherwise both remain |
| `Fusion.FirstNear` | pandora_vision/pandora_vision_landoltc/include/pandora_vision_landoltc/landoltc_2d/landoltc_detector.h:175-180 | a detection joins the first earlier group whose centre is near its own, if there is one |
| `FsmAgent.Agent.constructor` | pandora_fsm/src/pandora_fsm/agent.py:97-109 | a new agent has no target, no available targets, retry counter 0, the base not converged and the victim not valid |
| `FsmAgent.Agent.ExplorationSuccess` | pandora_fsm/src/pandora_fsm/agent.py:204-213 | fires 'map_covered' only in state 'exploration'; in any other state nothing changes |
| `FsmAgent.Agent.ExplorationRetry` | pandora_fsm/src/pandora_fsm/agent.py:215-224 | resends the exploration goal only in state 'exploration'; in any other state nothing changes |
| `FsmAgent.Agent.MoveBaseSuccess` | pandora_fsm/src/pandora_fsm/agent.py:245-258 | always resets the retry counter; only in 'identification' does it cancel the timer and fire 'valid_victim' |
| `FsmAgent.Agent.MoveBaseRetry` | pandora_fsm/src/pandora_fsm/agent.py:260-295 | outside 'identification' nothing changes; below the limit it increments the counter and resends the goal; at the limit it resets to 0, cancels the timer and fires 'valid_victim' if the target is identified or the base converged, else 'abort_victim'; the counter stays in [0, limit] |
| `FsmAgent.Agent.TimerHandler` | pandora_fsm/src/pandora_fsm/agent.py:502-509 | only in 'identification': cancels the navigation goals and the timer and fires 'abort_victim'; otherwise nothing changes |
| `FsmAgent.Agent.ChooseTarget` | pandora_fsm/src/pandora_fsm/agent.py:537-570 | None exactly for no targets; the sole target for one; otherwise the first target with strictly minimal distance below 1000 among those before the first failed lookup, or the first target when none is below 1000 |
| `FsmAgent.ChoiceUnique` | pandora_fsm/src/pandora_fsm/agent.py:552-568 | the nearest-target rule picks a single index |
| `FsmAgent.FindById` | pandora_fsm/src/pandora_fsm/agent.py:364-371 | finds a victim with the held target's id exactly when the model has one |
| `FsmAgent.Agent.ReceiveWorldModel` | pandora_fsm/src/pandora_fsm/agent.py:347-375 | no victims: nothing changes; otherwise they become the available targets and either an empty target is set to the nearest victim and 'poi.found' is emitted once, or a held target is refreshed and 'poi.found' emitted once, or, if its id is absent, the target is cleared and nothing is emitted |
| `FsmAgent.Agent.ResetEnvironment` | pandora_fsm/src/pandora_fsm/agent.py:381-385 | the victim is not valid and the target is empty |
| `FsmAgent.ExplorationFor` | pandora_fsm/src/pandora_fsm/agent.py:462-471 | coverage exploration is chosen exactly in the rescue-exploration mode |
| `FsmAgent.Agent.Explore` | pandora_fsm/src/pandora_fsm/agent.py:457-471 | issues one exploration request, coverage exactly in the rescue-exploration mode and fast otherwise |
| `FsmAgent.Agent.CheckForTargets` | pandora_fsm/src/pandora_fsm/agent.py:473-500 | ends in exactly one of two ways: 'poi.found' with a target held or exploration requested with the target empty; a held target missing from the available targets is cleared first |
| `RgbPostProcessing.RegionsOf` | pandora_vision/pandora_vision_hole_exploration/src/rgb_node/rgb_postprocessor.cpp:56-67 | one region per POI, in order; the i-th centre is the i-th POI's point and its width and height are that POI's box |
| `RgbPostProcessing.PostProcess` | pandora_vision/pandora_vision_hole_exploration/src/rgb_node/rgb_postprocessor.cpp:51-70 | returns true, copies the header and appends exactly the regions of the input POIs after the ones already there; every POI must be a bounding-box POI |

## Left out

- The detector model follows the header's declarations and comments; its operation bodies are reconstructions from them and from the published algorithms, with these choices:
  - Thinning works on a boolean matrix, not a 0/255 one.
  - A sub-iteration tests interior pixels only; the border is never deleted.
  - `thinning` repeats full passes until one changes nothing.
- `LandoltC.LandoltCDetector.RasterizeLine`: the line is a DDA segment. It has one point per unit step on the major axis, with each coordinate rounded half up. Votes are unbounded integers, so any saturation of the OpenCV vote matrix is not modelled. The model requires both endpoints to lie in the grid; where, if anywhere, the source clamps them is not visible in the header.
- `LandoltC.LandoltCDetector.FindCenters`: only the vote-threshold step is modelled. Left out: computing the gradient magnitude from the `float*` gradients and casting votes against `minDiff` (floating point), and any local-maximum suppression around a candidate (on the integer vote grid, but its body is not available).
- `LandoltC.LandoltCDetector.Find8Neighbours`: the rule that a pixel with exactly one set neighbour is a skeleton endpoint is inferred from the comments on `_edgePoints` and `_edges`. Neighbours outside the matrix count as unset.
- `LandoltC.LandoltCDetector.Fusion`: the grouping rule is a modelling choice. Centres within a Chebyshev window (`fusionProximity`, standing for a value from `params`) are grouped; a group keeps its first member's centre and box and gathers all members' gap angles. How the source combines angles and confidences is not modelled.
- `LandoltC.LandoltCDetector.Clear`: the vote grid and `edges` are not reset by it; the header does not say where they are reset.
- Not modelled for the detector: `findRotationA` (image moments, floating point); the angle arithmetic of `findRotationB`; `getWarpPerspectiveTransform` and `findLandoltContours` (OpenCV warping, contours, shape matching); `applyMask`, with the `_coloredContours` and `_mask` matrices it uses (OpenCV drawing); `initializeReferenceImage` (file I/O); `initialize`, `process`, `begin` (ROS and handler plumbing).
- `FsmAgent.Agent.ChooseTarget`: the tf lookup and planar distance are one given function `distance`, and `None` stands for a failed lookup. Its side effect on `current_pose` is not modelled.
- Agent abstractions:
  - `target.is_identified()` is the flag `identified` on the victim record.
  - `target.update` replaces the target with the model's first victim that has its id.
  - Target events such as goal resends are not modelled; the target module is not part of this model.
- `base_converged`, the watchdog timer and `poi_found_lock` are plain booleans or left out; thread, lock and timer semantics are not modelled. FSM transitions are recorded as triggers; the transition table loaded from YAML is not executed.
- `FsmAgent.Agent.CheckForTargets`: a held target counts as available only when an identical victim message is in the list; `Victim.info` stands for all message fields other than the id and the identified flag, so a message with the same id but an updated pose is a different victim and the held target is cleared and re-chosen. The fields themselves are not modelled.
- Logging (`log.*` calls in every agent handler) is not modelled; it has no effect on the agent's state.
- Not modelled for the agent: `load` (YAML file I/O, `sys.exit`); `destroy_agent` (process kill); `global_state_transition` (blocking retry loop with sleeps); `move_base_feedback` (floating-point distance); `poi_found`, `move_base_resend` and the other client-only actions (client calls and waits); `approach_target`, which besides its client calls clears "base converged" and starts the watchdog timer, so no modelled member sets either of those two fields (the other writer of "base converged" is the unmodelled `move_base_feedback`).
- `RgbPostProcessing.PostProcess`: coordinates and sizes are integers. A POI that is not a bounding-box POI is excluded by the precondition, since the source would dereference a null pointer.
- Not modelled: the Gazebo differential plugin (floating-point physics), the motor hardware interface (serial I/O declarations) and the hazmat post-processor and handler (declarations and mode registration).
