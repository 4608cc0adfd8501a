# lucky-face: a Dafny model of the photo lottery's core

lucky-face lets a user upload a group photo, detects the faces in it, lets the
user correct the detected boxes by hand, and then runs a short "lottery"
animation that flickers through random faces before it reveals the winners.
This project models, in Dafny, the parts of that program that carry logic:

- **Winner selection** (`src/lib/lottery.ts`, module `Lottery`, `lottery.dfy`):
  the Fisher-Yates `shuffleArray`, `selectWinners`, and
  `animateWinnerSelection`, whose 100 ms interval becomes a loop that records
  the callbacks it makes as a trace of `Update` / `Complete` events.
  `Math.random()` becomes a sequence of values in [0, 1) supplied by the
  caller, one per shuffle iteration, and the index is computed from it by the
  code's formula `Math.floor(r * (i + 1))`, evaluated on exact reals. `shuffleArray` receives the
  caller's `array` and has no `modifies` clause, so Dafny checks that the
  caller's array is left alone; the shuffled copy is returned as a sequence.
- **Detection post-processing** (`src/lib/faceDetection.ts`, module
  `FaceDetection`, `face_detection.dfy`): the in-place brightening loop over
  the RGBA buffer, the "best of several attempts" loop of `detectFaces` (each
  attempt is given as its outcome: it threw, or it found some detections), and
  the `face-<index>` ids.
- **Face-box editing** (`src/components/FaceAdjuster.tsx`, module
  `FaceAdjuster`, `face_adjuster.dfy`): the drag clamp, the four-corner resize
  with its 20 px minimum and image clamp, the movement thresholds, and adding
  and deleting faces. Coordinates are reals; positions are given already
  converted to natural image coordinates.
- **Product tour** (`src/components/ProductTour.tsx`, module `ProductTour`,
  `product_tour.dfy`): a class holding the tour's step counter, with next,
  previous, the reset when the tour is opened, and the render guard.

The animation has a single 100 ms interval running for 2000 ms: 20 decorative
draws, then one final draw. With an empty pool it makes 20 empty updates and
completes with no winners. A negative winner count follows JavaScript's `slice`
rules (`SliceEnd`).

## Model

| member | source | states |
|---|---|---|
| `Lottery.Pick` | src/lib/lottery.ts:6 | the index `floor(r * (i + 1))` drawn from any `Math.random()` value lies in [0, i], so every swap is in bounds |
| `Lottery.Swap` | src/lib/lottery.ts:7 | the destructuring swap exchanges entries i and j and leaves every other entry and the length unchanged |
| `Lottery.ShuffleFromPermutes` | src/lib/lottery.ts:5-8 | each stage of the countdown loop only swaps, so from any starting index the contents keep their length and multiset |
| `Lottery.ShuffledIsPermutation` | src/lib/lottery.ts:3-10 | for any random values, the shuffle result has the input's length and the same multiset of elements |
| `Lottery.ShuffleArray` | src/lib/lottery.ts:3-10 | copies the array and swaps in place on the copy; the result is the reference shuffle of the input, a permutation of it, equal to the input for length 0 or 1; the caller's array is not modified (no `modifies` clause) |
| `Lottery.SliceEnd` | src/lib/lottery.ts:16 | the end index `slice(0, end)` uses: `end` itself within [0, n], n beyond it, and for a negative `end` n minus abs(end) (0 when abs(end) > n) |
| `Lottery.Winners` | src/lib/lottery.ts:15-16 | the selection of a given set of random values: empty for an empty pool, min(count, n) faces for `count >= 0`, and n minus abs(count) (down to 0) for a negative count |
| `Lottery.WinnersAreDraw` | src/lib/lottery.ts:12-17 | `selectWinners([], k)` is empty; for `count >= 0` it returns exactly min(count, n) faces from distinct positions of the pool; for `count >= n` it returns the whole pool reordered |
| `Lottery.SelectWinners` | src/lib/lottery.ts:12-17 | returns the reference selection: empty for an empty pool, otherwise a draw of min(count, n) faces for `count >= 0` |
| `Lottery.Flicker` | src/lib/lottery.ts:31 | one decorative draw `shuffleArray(faces).slice(0, winnerCount)`: min(winnerCount, n) faces for a non-negative count, n minus abs(winnerCount) (down to 0) for a negative one |
| `Lottery.AnimateWinnerSelection` | src/lib/lottery.ts:19-42 | the interval fires exactly 20 `onUpdate` callbacks at 100, 200, …, 2000 ms, each a prefix of a fresh shuffle, then exactly one `onComplete` at 2000 ms carrying a fresh `selectWinners` result; nothing fires after it |
| `Lottery.AnimationEventsAreDraws` | src/lib/lottery.ts:31-38 | for `winnerCount >= 0`, every update and the final winners are min(winnerCount, n) faces from distinct positions of the pool |
| `Lottery.RevealCanDifferFromLastFlicker` | src/lib/lottery.ts:31-39 | the final winners come from their own draw: with faces [0, 1] and one winner, the last update can show [1] while the winners are [0] |
| `FaceDetection.Enhance` | src/lib/faceDetection.ts:45-47 | the written channel never decreases, is 255 from input 196 on, and below that is the integer nearest to 1.2·v + 20 |
| `FaceDetection.EnhanceMonotone` | src/lib/faceDetection.ts:45-47 | brightening preserves the order of channel values |
| `FaceDetection.Brightened` | src/lib/faceDetection.ts:43-48 | the brightened buffer has the same length, every alpha byte (offset ≡ 3 mod 4) unchanged, and no channel lower than before |
| `FaceDetection.PreprocessImage` | src/lib/faceDetection.ts:43-48 | the stride-4 loop rewrites the buffer in place into exactly the brightened buffer (offsets i, i+1, i+2 enhanced, alpha kept) |
| `FaceDetection.SelectBestDetections` | src/lib/faceDetection.ts:99-122 | attempts run up to and including the first that finds at least 5 faces; failed attempts are skipped; the result has the largest count among the attempts run and is the earliest attempt reaching it; all attempts failing or finding nothing gives `[]` |
| `FaceDetection.NatToString` | src/lib/faceDetection.ts:127 | the decimal text of a number is a non-empty string of digits, with more than one digit exactly from 10 on |
| `FaceDetection.NatToStringInjective` | src/lib/faceDetection.ts:127 | different indices render to different decimal texts |
| `FaceDetection.FaceId` | src/lib/faceDetection.ts:127 | a detected face's id is `face-` followed by at least one decimal digit and nothing else |
| `FaceDetection.FaceIdInjective` | src/lib/faceDetection.ts:127 | different indices get different `face-<index>` ids |
| `FaceDetection.ToDetectedFaces` | src/lib/faceDetection.ts:126-135 | one face per detection, in order: face i has id `face-i`, the box of detection i, and detection i itself |
| `FaceDetection.DetectedFaceIdsDistinct` | src/lib/faceDetection.ts:126-135 | the ids of the mapped faces are pairwise distinct |
| `FaceDetection.DetectFaces` | src/lib/faceDetection.ts:99-135 | no faces when no attempt found any; otherwise the faces of one successful attempt that was run (no earlier attempt reached 5 faces) and is the earliest with that many faces, at least as many as any attempt run, with pairwise distinct ids |
| `FaceAdjuster.Clamp` | src/components/FaceAdjuster.tsx:115-116 | `max(lo, min(v, hi))` is at least `lo`, at most `hi` when the range is non-empty, and `v` itself when `v` is in range |
| `FaceAdjuster.ClampIsNearest` | src/components/FaceAdjuster.tsx:115-116 | the clamped value is the point of the range closest to the requested one |
| `FaceAdjuster.MovedBeyond` | src/components/FaceAdjuster.tsx:79-84 | the Euclidean-distance test of the drag (and, identically, of the resize with threshold 3): moving further than the threshold along one axis passes it, passing it means the sum of the absolute axis distances exceeds the threshold, and with threshold 0 any move passes |
| `FaceAdjuster.DraggedBox` | src/components/FaceAdjuster.tsx:113-120 | a drag keeps width and height, puts the origin at or after 0 and, when the box fits, keeps it inside the image; a target already in range is taken as is |
| `FaceAdjuster.DraggedBoxIdempotent` | src/components/FaceAdjuster.tsx:113-120 | dragging twice to the same target gives the same box as dragging once |
| `FaceAdjuster.DragMove` | src/components/FaceAdjuster.tsx:77-122 | with no selection or a pointer within 5 px of the start nothing changes; otherwise only the selected face changes, and only its box, to the dragged box |
| `FaceAdjuster.ResizedBox` | src/components/FaceAdjuster.tsx:159-198 | for each handle the opposite corner stays fixed; the grabbed corner follows the mouse up to the 20 px limit and past it the side is exactly 20, so the box is determined on both axes; width and height are at least 20; an unknown handle keeps the initial box; putting the mouse on the grabbed corner reproduces the box |
| `FaceAdjuster.ResizeFromHandle` | src/components/FaceAdjuster.tsx:159-198 | the `switch` that rewrites the box field by field computes exactly `ResizedBox` |
| `FaceAdjuster.ClampedBox` | src/components/FaceAdjuster.tsx:200-204 | the clamped box starts at or after 0 and ends inside the image; for an image at least 20 px wide (high) the origin is at most 20 px before the edge and a size of at least 20 stays at least 20; a box already inside is unchanged |
| `FaceAdjuster.ClampToImage` | src/components/FaceAdjuster.tsx:200-204 | the four clamp assignments, in order, compute exactly `ClampedBox` |
| `FaceAdjuster.ResizeMove` | src/components/FaceAdjuster.tsx:124-211 | the box changes once the pointer has moved more than 3 px or has already moved; then only the selected face changes, to the same face with box `ClampedBox(ResizedBox(initial, handle, mouse))`, which lies inside the image; with no selection nothing changes |
| `FaceAdjuster.ManualFaceId` | src/components/FaceAdjuster.tsx:248 | a hand-made id is `manual-face-` followed by at least one decimal digit and nothing else |
| `FaceAdjuster.ManualFaceIdIsNotDetected` | src/components/FaceAdjuster.tsx:248 | an id `manual-face-<time>` never equals a detected face's `face-<index>` id |
| `FaceAdjuster.AddFace` | src/components/FaceAdjuster.tsx:246-258 | appends exactly one face, with box (100, 100, 100, 100), no detection and id `manual-face-<now>`; existing faces and the selection are unchanged |
| `FaceAdjuster.WithoutIndex` | src/components/FaceAdjuster.tsx:262 | filtering out index k (k in range) gives a list one shorter whose entries before k are kept and whose later entries move down by one; an index out of range keeps the list |
| `FaceAdjuster.DeleteFace` | src/components/FaceAdjuster.tsx:260-265 | with a selection, removes exactly that face, keeps the rest in order and clears the selection to -1; without one, changes nothing |
| `FaceAdjuster.DeleteUndoesAdd` | src/components/FaceAdjuster.tsx:246-265 | adding a face, selecting it and deleting it restores the original face list |
| `ProductTour.Tour.constructor` | src/components/ProductTour.tsx:19-20 | a mounted tour starts at step 0 |
| `ProductTour.Tour.SetActive` | src/components/ProductTour.tsx:22-27 | opening the tour resets the step to 0; any other change of `isActive` leaves the step alone |
| `ProductTour.Tour.HandleNext` | src/components/ProductTour.tsx:29-35 | before the last step the step goes up by one; on the last step `onComplete` is reported and the step is unchanged; the step stays in range |
| `ProductTour.Tour.HandlePrev` | src/components/ProductTour.tsx:37-41 | the step goes down by one, except at step 0 where nothing changes; the step stays in range |
| `ProductTour.Tour.Render` | src/components/ProductTour.tsx:43-46 | an active tour with at least one step always shows `steps[currentStep]` (the index is in bounds), an inactive or empty one shows nothing; the progress is in (0, 100] and is 100 exactly on the last step |
| `ProductTour.ProgressInRange` | src/components/ProductTour.tsx:46 | `(currentStep + 1) / steps.length * 100` lies in (0, 100] and equals 100 exactly on the last step |

## Left out

- The face-api.js detector calls, model loading and the `modelsLoaded` flag (src/lib/faceDetection.ts:14-27, 65-97): foreign library code and network I/O. Each attempt is an `Outcome` given to the model; the source makes five attempts, the model accepts any number.
- Canvas work: `getImageData`/`putImageData`, `drawFaceBoxes`, and the crop drawing of the winner modal. Rendering only.
- Real timers and randomness: `setInterval`/`clearInterval` become a loop whose iterations are the firings; the random values are parameters. Uniformity and fairness of the shuffle are probabilistic and not stated.
- `animateWinnerSelection` offers no way to cancel a run, and overlapping runs are prevented by its caller; neither is modelled.
- `Lottery.Pick`: floors the exact real product r·(i + 1), whereas JavaScript first rounds the product to a double; near an integer boundary the two can differ by one (r = 0.3333333333333333, i = 2 gives 1 in JavaScript and 0 here). The bound 0 <= j <= i and every permutation and draw result hold for any index in that range, so they are unaffected.
- `Lottery.ShuffleArray` returns the shuffled copy as a sequence, not as a new array object.
- `FaceDetection.Enhance`: computes with the exact value 1.2·v + 20 rather than the double-precision product `v * 1.2`; at these magnitudes the difference is far below the 0.1 margin that separates every value from a rounding tie.
- The console logging in `detectFaces`.
- The conversion from screen to natural coordinates (scale and centring offsets) in FaceAdjuster.tsx: the model takes the converted position as input. `Math.sqrt` of the squared distance compared with a threshold is decided on squared distances, which is the same test for non-negative thresholds.
- React and browser plumbing: JSX, event listeners, scroll locking, `handleSave`, selecting a face by clicking, the camera, file reading and download in PhotoLotteryApp.tsx, and the header, language switcher, i18n provider and toaster components.
- The `steps` property of the product tour is fixed for a tour's lifetime; a parent replacing it with a shorter list (the case the render guard's `currentStep >= steps.length` test also covers) is not modelled.
- Static configuration and content (locales, layout, page, Next.js config, the identity image loader) and the service worker's cache I/O: no logic to verify.
