# iptsd: a verified model

iptsd reads the raw data of Intel Precise Touch & Stylus devices and turns it into Linux input events. Raw buffers are taken
apart into capacitive heatmaps and samples; contacts are detected in the heatmaps, tracked from frame to frame, stabilised and
validated; and the daemon drives virtual input devices with the result. On Android, a runner finds the devices and supervises
one process per device. This project models that pipeline in Dafny and proves what each part promises, for all inputs and over
whole runs.

Code that changes state is modelled in that form: classes with the fields of the original, arrays and two-dimensional arrays
that are updated in place, loops and mutually recursive methods. Each method is proved against a specification on values, and
the promises are proved about that specification. Exceptions are results. Numbers are exact: floating point is `real`, fixed
width integers are written out where they wrap. `exp`, `log` and `hypot` are parameters; only that the exponential is positive
is used of the first.

| files | part of the system |
|---|---|
| `LinearSolver`, `LeastSquares`, `Regularity`, `GaussianFit`, `WeightMaps`, `WeightCurves`, `Fitting` | the weighted Gaussian fit |
| `Kernels`, `Convolution`, `Maximas`, `Suppression`, `Cluster`, `Overlaps`, `Detector` | the heatmap algorithms, and the detector that combines them |
| `Contacts`, `Tracker`, `Stabilizer`, `Validator`, `Finder` | contacts over runs of frames |
| `Uinput`, `Touch`, `TouchSafety`, `Stylus`, `Daemon` | the output devices, with the kernel side of the multitouch protocol (type B) |
| `HidItems`, `HidFlat`, `HidTree`, `HidSimulation`, `HidDetection`, `HidDifferences` | the two HID report descriptor parsers, and how they relate |
| `ByteReader`, `IptsProtocol`, `IptsParser`, `IptsSafety`, `IptsFrames`, `IptsReports` | the parser for IPTS data |
| `Recording` | recording a device to a file, and replaying it |
| `Supervisor` | the Android process supervisor, with the operating system as nondeterministic partner |
| `Common`, `Geometry` | shared types |

Some results are about where the code does less than one might expect. In these cases the model does what the code does, the
condition under which it does meet the expectation is proved, and an example is given:

- A contact that was marked invalid does not stay invalid until it is lifted, as src/contacts/validation/config.hpp:21-22 says:
  it stays invalid through any number of frames if and only if none of its measurements changes too fast
  (`Finder.InvalidStaysIffSlow`); `Finder.QuickChangeClearsMark` is a run of three frames that clears the mark.
- Merging boxes can lose boxes. A box is part of the result if and only if each round that is run takes one of the boxes made
  of it (`Overlaps.BoxIsLostExactly`), and then the result covers it (`Overlaps.CarriedBoxIsCovered`). Two inputs lose pixels,
  the first at once, the second in the round after one that loses nothing (`Detector.MergingLosesPixels`). A box that is not
  part of the result may still be covered by chance.
- The flat HID parser says it repeats the detection of the tree parser (android/ipts_detector.cpp:6-9). On descriptors that do
  not split reports over collections and the like, both agree unless the descriptor is cut off and the flat parser accepts it
  (`HidDetection.VerdictsAgreeExactly`). Exactly what each finds on others is in `HidDifferences`, with the bytes of three
  descriptors on which they disagree.
- The weights that divide a pixel between overlapping Gaussians use half of the exponential of a form, while the curve that is
  fitted is the exponential of half of it. Both give the same shares of a pixel if and only if all Gaussians of positive scale
  that cover it have the same height there (`WeightCurves.WeightsAreCurveShares`); `WeightCurves.UnevenWeights`
  shows two that do not.
- A recording whose last record is empty loses that record, and only then (`Recording.ReplayRoundTrip`).
- A frame of IPTS reports that is followed by exactly four bytes is dropped (`IptsFrames.ReportsBeforeFourBytesAreDropped`).

Where comments and code disagree, the model follows the code. The table at src/contacts/detection/algorithms/maximas.hpp:27-36
compares two of the neighbours differently from the code, which breaks ties in column-major order.
android/device_manager.h:69 gives 1 as the default of reload_on_resume, the code on Android uses 0.

`dafny verify dfyconfig.toml` checks the project.

## Model

| member | source | states |
|---|---|---|
| LinearSolver.GeSolve | src/contacts/detection/algorithms/gaussian.hpp:240-314 | Success means x solves the original system and is its only solution. For every threshold: it fails only if some vector that ends with a one is mapped to entries of at most the threshold, and it succeeds only if every vector that ends with a one at column k is mapped to an entry above the threshold over 2^k; with a threshold of zero it succeeds exactly for regular matrices |
| LinearSolver.SwapKeepsSolutions | src/contacts/detection/algorithms/gaussian.hpp:267-273 | Swapping the pivot row in, right of the diagonal only, keeps the set of solutions although the stale entries on the left are not swapped |
| LinearSolver.EliminationKeepsSolutions | src/contacts/detection/algorithms/gaussian.hpp:276-286 | Eliminating a column keeps the set of solutions although the entries below the diagonal are left stale |
| LinearSolver.FindPivot | src/contacts/detection/algorithms/gaussian.hpp:249-261 | The row that is found has an entry of largest absolute value, or all entries are zero |
| LinearSolver.ToTriangle | src/contacts/detection/algorithms/gaussian.hpp:245-291 | The triangular system has the same solutions; the same two conditions hold for success and refusal |
| LinearSolver.SmallPivotIsNearlySingular | src/contacts/detection/algorithms/gaussian.hpp:263-265 | If no entry that is left in a column is above the threshold, back substitution from that column gives a vector that the matrix at the start maps to entries of at most the threshold |
| LinearSolver.LargePivotsAreRobust | src/contacts/detection/algorithms/gaussian.hpp:249-291 | If all pivots are above the threshold, no vector that ends with a one is mapped nearly to zero by the matrix at the start: as each pivot is the largest of its column, a step at most doubles what is left of a vector |
| LinearSolver.ZeroThreshold | src/contacts/detection/algorithms/gaussian.hpp:263-265 | For a threshold of zero these are exactly the singular and the regular matrices |
| LinearSolver.BackSubstitute | src/contacts/detection/algorithms/gaussian.hpp:293-311 | Every row of the triangular system is solved |
| LinearSolver.TriangularSolution | src/contacts/detection/algorithms/gaussian.hpp:293-313 | A solution of the triangular system is the only solution of the original one |
| LeastSquares.DefectIsGradient | src/contacts/detection/algorithms/gaussian.hpp:58-141 | What is missing for a solution of the normal equations is the gradient of the weighted squared error, for any samples and any coefficients |
| LeastSquares.ErrorExpands | src/contacts/detection/algorithms/gaussian.hpp:58-141 | The error at any other coefficients is the error here, plus the gradient times the step, plus the energy of the step |
| LeastSquares.SolutionMinimises | src/contacts/detection/algorithms/gaussian.hpp:58-141 | A solution of the assembled system has the smallest weighted squared error of all coefficient vectors |
| LeastSquares.MinimiserIsUnique | src/contacts/detection/algorithms/gaussian.hpp:58-141 | If the system is regular, no other coefficients have as small an error |
| GaussianFit.AssembleSystem | src/contacts/detection/algorithms/gaussian.hpp:58-141 | The matrix and the right hand side are the normal equations of the pixels of the box, with the coefficient of xy counted twice |
| GaussianFit.AddPixel | src/contacts/detection/algorithms/gaussian.hpp:83-136 | One pixel adds its outer product to the matrix and its weighted value to the right hand side |
| GaussianFit.DoubleMixedRow | src/contacts/detection/algorithms/gaussian.hpp:140 | Doubling the second row makes the mixed coefficient count twice |
| Regularity.RegularIffDetermined | src/contacts/detection/algorithms/gaussian.hpp:58-141 | The assembled system is regular if and only if no quadratic but zero vanishes at all samples that have a weight |
| Regularity.GridDetermines | src/contacts/detection/algorithms/gaussian.hpp:58-141 | Samples with a weight where three columns cross three rows leave room for one quadratic only |
| GaussianFit.CrossingPixelsDetermine | src/contacts/detection/algorithms/gaussian.hpp:79-138 | The same for pixels of the box: neither value nor weight is zero where three of its columns cross three of its rows |
| GaussianFit.NarrowBoxIsSingular | src/contacts/detection/algorithms/gaussian.hpp:79-138 | A box of at most two pixels in width or height never gives a regular system, whatever its values and weights |
| GaussianFit.ThreeByThreeIsExact | src/contacts/detection/detector.hpp:168-170 | If no pixel of the box is zero, the system is regular if and only if the box has at least three columns and three rows |
| GaussianFit.FitCoefficients | src/contacts/detection/algorithms/gaussian.hpp:363-369 | The coefficients that assembling and solving give have a smaller error over the pixels of the box than all others; the fit fails only if the system of these pixels is nearly singular by the pivot threshold, succeeds only if it is not, and without a threshold it succeeds if and only if the pixels determine the coefficients |
| GaussianFit.ExtractParams | src/contacts/detection/algorithms/gaussian.hpp:143-160 | Succeeds exactly if the determinant is above the threshold; then the mean is the only stationary point of the quadratic, and the scale its exponential there |
| GaussianFit.StationaryPoint | src/contacts/detection/algorithms/gaussian.hpp:148-154 | The closed form of the mean is the only stationary point |
| GaussianFit.CompletedSquare | src/contacts/detection/algorithms/gaussian.hpp:143-160 | Around the mean, the fitted quadratic is its value there minus half of the quadratic form of the precision matrix |
| WeightMaps.UpdateWeightMaps | src/contacts/detection/algorithms/gaussian.hpp:162-229 | For any number of overlapping boxes, each weight is the share of its own Gaussian in the total of all valid ones, at every pixel |
| WeightMaps.WeightsSumToOne | src/contacts/detection/algorithms/gaussian.hpp:162-229 | Where the total is positive the weights of all valid boxes over a pixel sum to exactly one, and each is between zero and one |
| WeightMaps.CoveredPixelHasTotal | src/contacts/detection/algorithms/gaussian.hpp:178-210 | A pixel under a box with positive scale has a positive total |
| WeightCurves.WeightsAreCurveShares | src/contacts/detection/algorithms/gaussian.hpp:49-56 | The weights at a pixel are the shares of the fitted curves if and only if all Gaussians of positive scale that cover it have the same height there |
| WeightCurves.UnevenWeights | src/contacts/detection/algorithms/gaussian.hpp:49-56 | Two overlapping Gaussians, one closer to the pixel than the other, whose weights are not the shares of the curves |
| Fitting.Fit | src/contacts/detection/algorithms/gaussian.hpp:318-390 | The shapes are scaled to -1..1, go through the given number of iterations as a relation on shapes, and are scaled back; every parameter that is still valid is the Gaussian of the least squares solution for its weights, which are the shares of the shapes before the last iteration; without thresholds a parameter stays valid if and only if its samples can be solved |
| Fitting.Iterate | src/contacts/detection/algorithms/gaussian.hpp:350-374 | One iteration: each valid shape becomes the best fit for the pixels of its box, weighted with the shares of the shapes before, or invalid if the threshold may refuse these pixels; without thresholds it stays valid if and only if its samples can be solved |
| Fitting.Repeat | src/contacts/detection/algorithms/gaussian.hpp:350-374 | Exactly the given number of such iterations, one after the other |
| Fitting.SharesGiveSamples | src/contacts/detection/algorithms/gaussian.hpp:350-363 | The samples of an iteration depend on the shapes before it only |
| Fitting.ScalingKeepsForm | src/contacts/detection/algorithms/gaussian.hpp:376-389 | Scaling back keeps the value of the quadratic form at every pixel |
| Fitting.ReportedCurve | src/contacts/detection/algorithms/gaussian.hpp:376-389 | At every pixel, the fitted quadratic is its value at the mean minus half of the form of the reported shape, so the reported shape is the fitted curve in heatmap coordinates |
| Fitting.UpDown | src/contacts/detection/algorithms/gaussian.hpp:334-347 | Scaling up undoes scaling down (also src/contacts/detection/algorithms/gaussian.hpp:376-389) |
| Fitting.FitOne | src/contacts/detection/algorithms/gaussian.hpp:360-372 | A parameter that stays valid has the mean, precision and scale of the minimiser for its pixels; it becomes invalid only if the pixels leave the system nearly singular by the threshold or the determinant of the best quadratic is not above it; without thresholds it stays valid if and only if the samples determine a quadratic with one stationary point |
| Kernels.Gaussian | src/contacts/detection/algorithms/kernels.hpp:21-50 | The kernel is proportional to the bell curve, not negative, and sums to exactly one |
| Kernels.WeightIsBell | src/contacts/detection/algorithms/kernels.hpp:34-42 | Each weight is the exponential of minus the squared distance from the middle of the kernel over twice the squared width |
| Kernels.Blur | src/contacts/detection/detector.hpp:128-129 | The image is convolved with the gaussian kernel of three by three, and never leaves the range of the input |
| Convolution.RunGeneric | src/contacts/detection/algorithms/convolution.hpp:26-67 | Every pixel is the sum over the kernel with the position clamped to the heatmap |
| Convolution.Run3x3 | src/contacts/detection/algorithms/optimized/convolution.3x3-extend.hpp:19-238 | For every heatmap of at least two by two pixels, the unrolled form with its running index writes that same sum to every pixel |
| Convolution.ConvolvedIsNine | src/contacts/detection/algorithms/convolution.hpp:26-67 | For a three by three kernel the clamped double sum is nine products in the order of the unrolled form |
| Convolution.FormsAgree | src/contacts/detection/algorithms/convolution.hpp:83-103 | Both forms give the same image |
| Convolution.ConvolutionAverages | src/contacts/detection/algorithms/convolution.hpp:26-67 | With weights that are not negative and sum to one, every output is between the bounds of the input |
| Maximas.Find | src/contacts/detection/algorithms/maximas.hpp:20-88 | The list holds the maxima in scan order |
| Maximas.IsLocalMaximum | src/contacts/detection/algorithms/maximas.hpp:53-82 | The comparisons amount to beating all eight neighbours under one strict order: by value, then earlier in column-major order |
| Maximas.ExactlyTheMaximas | src/contacts/detection/algorithms/maximas.hpp:43-87 | A pixel is in the list if and only if it is above the threshold and beats all of its neighbours, and it is there once |
| Maximas.MaximasAreApart | src/contacts/detection/algorithms/maximas.hpp:33-35 | No two of the maxima are adjacent |
| Maximas.PathToMaximum | src/contacts/detection/algorithms/maximas.hpp:43-87 | From every pixel above the threshold an ascending path of adjacent pixels, all above the threshold, leads to a maximum |
| Suppression.DarkenAroundMaximas | src/contacts/detection/algorithms/suppression.hpp:32-113 | Pixel by pixel: maxima keep their value, pixels within the radius of one become the smaller of their value and its darkened value, all others are unchanged |
| Suppression.DarkenedValue | src/contacts/detection/algorithms/suppression.hpp:47-50 | A value that is not negative is darkened to its part by the factor, which is kept between zero and one, and is never brighter than before (also src/contacts/detection/algorithms/suppression.hpp:73-112) |
| Suppression.DiskOffsets | src/contacts/detection/algorithms/suppression.hpp:56-71 | The offsets are exactly those within the Euclidean radius, without the centre |
| Suppression.OrderIsIrrelevant | src/contacts/detection/algorithms/suppression.hpp:73-112 | The result depends on which maxima there are, not on their order or how often they are listed |
| Cluster.Span | src/contacts/detection/algorithms/cluster.hpp:122-159 | The box is the smallest one around exactly the pixels that are reachable from the start, or empty if the start is off the heatmap or not above the deactivation threshold |
| Cluster.RecursionState.SpanRecursive | src/contacts/detection/algorithms/cluster.hpp:55-101 | The recursion ends; it marks reachable pixels only, and afterwards every pixel that may be entered from a newly marked one is marked |
| Cluster.SpanIsUnique | src/contacts/detection/algorithms/cluster.hpp:55-159 | The box does not depend on the order of visits |
| Cluster.SpanCoversActivatedArea | src/contacts/detection/algorithms/cluster.hpp:55-101 | With the deactivation threshold not above the activation threshold, the box covers the whole connected area of activated pixels around the start |
| Cluster.SpanContainsStart | src/contacts/detection/algorithms/cluster.hpp:122-159 | A start that may be entered is inside its box |
| Overlaps.OverlapIsRatio | src/contacts/detection/algorithms/overlaps.hpp:41-67 | Intersection over union is symmetric and between zero and one, so its error cannot occur |
| Overlaps.OverlappingExactly | src/contacts/detection/algorithms/overlaps.hpp:41-67 | Two boxes overlap if and only if at least half of the pixels of both belong to both, counted as sets (also src/contacts/detection/algorithms/overlaps.hpp:89-91) |
| Overlaps.Search | src/contacts/detection/algorithms/overlaps.hpp:76-104 | All pairs that overlap by at least one half are listed, and no others, in order |
| Overlaps.MergeRound | src/contacts/detection/algorithms/overlaps.hpp:133-160 | The round in place equals a round on values, because only later boxes are read and these are unchanged |
| Overlaps.Merge | src/contacts/detection/algorithms/overlaps.hpp:120-166 | The result is that of the rounds on values; the error occurs exactly if no round was allowed |
| Overlaps.RoundShrinks | src/contacts/detection/algorithms/overlaps.hpp:120-166 | A round that finds an overlap leaves fewer boxes, but at least one |
| Overlaps.EnoughRounds | src/contacts/detection/algorithms/overlaps.hpp:120-166 | With as many rounds as boxes, less one, no two boxes of the result overlap |
| Overlaps.MergedStaysMerged | src/contacts/detection/algorithms/overlaps.hpp:120-166 | Merging such a result again changes nothing |
| Overlaps.MergedBoxesAreHulls | src/contacts/detection/algorithms/overlaps.hpp:133-158 | Every box of the result is the smallest box around the input boxes it was made of |
| Overlaps.RoundCarries | src/contacts/detection/algorithms/overlaps.hpp:133-158 | One round loses exactly those input boxes none of whose carriers is kept, or overlaps an earlier box that is kept |
| Overlaps.BoxIsLostExactly | src/contacts/detection/algorithms/overlaps.hpp:127-162 | Over all rounds, an input box is one of those the result was made of if and only if every round that is run takes one of the boxes made of it |
| Overlaps.CarriedBoxIsCovered | src/contacts/detection/algorithms/overlaps.hpp:127-162 | An input box that the result was made of is covered by a box of the result |
| Overlaps.TakenBoxesAreCovered | src/contacts/detection/algorithms/overlaps.hpp:127-162 | If every round that is run takes all of its boxes, the result covers every input box |
| Overlaps.ChainLosesPixels | src/contacts/detection/algorithms/overlaps.hpp:127-162 | Three boxes in a chain for which any number of rounds loses pixels of the last one |
| Overlaps.LateChainLosesPixels | src/contacts/detection/algorithms/overlaps.hpp:127-162 | Four boxes that the first round takes all, and of which the second round loses pixels |
| Detector.FindClusters | src/contacts/detection/detector.hpp:134-176 | The boxes are the five rounds of merging over the list that holds, for each maximum in order, the cluster of its span on the darkened heatmap: the pixels of the heatmap that are in the span or next to it, if these are at least three pixels wide and high |
| Detector.GrownIsCluster | src/contacts/detection/detector.hpp:161-163 | Moving the sides of a span by one pixel, as far as the heatmap goes, takes in exactly the pixels next to it |
| Detector.ClustersAreUnique | src/contacts/detection/detector.hpp:155-173 | The spans of the maxima determine the list, with its order |
| Detector.NoClusterIsMissing | src/contacts/detection/detector.hpp:155-173 | Every cluster that is large enough is in the list |
| Detector.FittableIsExact | src/contacts/detection/detector.hpp:168-170 | If no pixel of a box is zero, that size is exactly what makes its fit determined |
| Detector.MergingLosesPixels | src/contacts/detection/detector.hpp:175-176 | Two lists of boxes of that size for which the five rounds of the detector lose pixels |
| Detector.MaximumSpansItself | src/contacts/detection/detector.hpp:134-159 | Suppression keeps every maximum, so each still spans a cluster that contains it |
| Detector.FewClustersMergeCompletely | src/contacts/detection/detector.hpp:175-176 | Five rounds are enough for six clusters |
| Tracker.Tracker.Track | src/contacts/tracking/tracker.hpp:44-82 | Indices are passed on along a greedy matching of the two frames, the other contacts get new ones, and the frame is remembered |
| Tracker.Tracker.FindNewIndex | src/contacts/tracking/tracker.hpp:91-99 | The smallest unused index from the given one on; the search ends |
| Tracker.MatchedOnce | src/contacts/tracking/tracker.hpp:61-75 | No contact of either frame is matched twice |
| Tracker.FullMatching | src/contacts/tracking/tracker.hpp:54-75 | As many pairs as the smaller frame has contacts, so all of its contacts are matched |
| Tracker.DistancesNeverDecrease | src/contacts/tracking/tracker.hpp:61-75 | Each round picks a pair that is no closer than the one before |
| Tracker.MatchingIsStable | src/contacts/tracking/tracker.hpp:54-75 | Of two contacts that are not matched with each other, at least one has a partner that is no farther away |
| Tracker.TrackedIndicesAreDistinct | src/contacts/tracking/tracker.hpp:44-82 | The indices of a frame are distinct if those of the last frame were |
| Tracker.OldIndicesSurvive | src/contacts/tracking/tracker.hpp:54-75 | No index is lost when the number of contacts does not fall |
| Tracker.NoNewIndices | src/contacts/tracking/tracker.hpp:54-75 | No new index appears when the number of contacts does not rise |
| Tracker.RunIndices | src/contacts/tracking/tracker.hpp:34-99 | In every run of frames of at most n contacts, with resets, indices are distinct in each frame and at most 2n - 2 |
| Contacts.FindByPosition | src/contacts/contact.hpp:62-73 | With distinct indices, looking up an index finds the contact that carries it |
| Stabilizer.Stabilizer.Stabilize | src/contacts/stability/stabilizer.hpp:48-58 | The frame is changed contact by contact as the value specification says, and remembered |
| Stabilizer.UnstableMeansFast | src/contacts/stability/stabilizer.hpp:66-191 | A contact is unstable exactly if it was there before and one of the enabled properties was measured to change faster than its upper limit, the orientation only if it is not nearly round once its size is stabilised |
| Stabilizer.HeldWithinLimit | src/contacts/stability/stabilizer.hpp:129-149 | A contact is reported where it was measured, or less than the lower limit away from there |
| Stabilizer.WhatIsHeld | src/contacts/stability/stabilizer.hpp:67-193 | Size and position are those of before exactly while they change by less than the lower limit, the orientation too unless the contact is nearly round, which makes it zero; nothing else changes but the mark |
| Stabilizer.NearlyRoundExactly | src/contacts/stability/stabilizer.hpp:156-168 | Contacts with an extent are nearly round if and only if neither side is eleven tenths of the other or more |
| Stabilizer.TurnIsSmallest | src/contacts/stability/stabilizer.hpp:172-179 | A turn is the smallest of the angles between two orientations that repeat after half a circle |
| Validator.Validator.Validate | src/contacts/validation/validator.hpp:44-109 | Every contact is marked by the rules and the last frame, and the frame is remembered |
| Validator.ValidExactly | src/contacts/validation/validator.hpp:62-151 | A contact is marked valid if and only if it is unstable, or was not invalid before as far as that is tracked, its longer side is within the size limits, and within the aspect limits times the shorter side |
| Finder.Finder.Find | src/contacts/finder.hpp:71-73 | The three stages after detection in turn, each with its own memory of the last frame |
| Finder.RunIsInLockstep | src/contacts/finder.hpp:48-74 | In every run the three stages remember the same indices in the same order, all distinct |
| Finder.InvalidAgainIffSlow | src/contacts/validation/validator.hpp:62-109 | With validity tracking, an invalid contact that is still there is invalid again if and only if it was not measured to change too fast |
| Finder.InvalidStaysIffSlow | src/contacts/validation/validator.hpp:64-73 | A contact that was invalid once stays invalid through all following frames in which it is there, for any number of them, if and only if no measurement changes too fast |
| Finder.QuickChangeClearsMark | src/contacts/validation/validator.hpp:64-66 | A run of three frames with one contact throughout, whose size changes quickly once: invalid, then unstable and valid, then stable and still valid |
| Finder.PositionIsHeld | src/contacts/stability/stabilizer.hpp:129-149 | While a contact is measured closer to where it is held than the lower limit, it is held and reported there, for any number of frames |
| Touch.TouchDevice.Update | src/apps/daemon/touch.hpp:134-149 | The state of the device and of the kernel after a frame, with nothing left unreported |
| Touch.TouchDevice.Disable | src/apps/daemon/touch.hpp:169-180 | Everything is lifted and reported, and the memory cleared |
| Touch.TouchDevice.SearchLifted | src/apps/daemon/touch.hpp:217-239 | The indices of the frame, those of the last frame, and those that were in the last frame only |
| Touch.TouchDevice.Process | src/apps/daemon/touch.hpp:262-324 | Contacts are shown or lifted in order, gone ones are lifted, and the singletouch contact is emitted, or lifted and chosen anew |
| Touch.TouchDevice.LiftAll | src/apps/daemon/touch.hpp:462-475 | The slots of both frames are released and the singletouch contact is lifted |
| Touch.OnAxis | src/apps/daemon/touch.hpp:344-352 | Positions stay within the declared range of their axis |
| Touch.FingerShowsContact | src/apps/daemon/touch.hpp:340-366 | A finger shows the nearest position on axes up to 9600 and 7200, the nearest angle in degrees, and the larger and the smaller side on an axis up to 12000 |
| Touch.LiftedExactlyOffScreen | src/apps/daemon/touch.hpp:281-283 | A contact is lifted if and only if it is invalid or, in length units, farther outside of the screen than the overshoot |
| Touch.FirstIsChosen | src/apps/daemon/touch.hpp:303-323 | The next singletouch contact is the first that has another index and is not invalid, if there is one |
| TouchSafety.NoGhostTouches | src/apps/daemon/touch.hpp:134-188 | After any sequence of frames, button samples, disabling and enabling, the active slots are indices of the current frame, and none is active while the device is disabled |
| TouchSafety.KernelShowsFrame | src/apps/daemon/touch.hpp:262-302 | After a frame with distinct indices the slot of a stable contact shows that contact, or nothing if it must be lifted; the slot of an unstable one is as before |
| TouchSafety.StableFrameIsExact | src/apps/daemon/touch.hpp:262-302 | After a frame of stable contacts, the active slots are exactly those of the contacts that are not invalid and at most the overshoot away from the screen |
| TouchSafety.SingletouchIsBacked | src/apps/daemon/touch.hpp:262-324 | In every run with distinct indices, BTN_TOUCH means that the slot of the singletouch contact is active and at the same position, and on touchpads exactly the tool for the number of contacts is pressed (also src/apps/daemon/touch.hpp:435-457) |
| TouchSafety.ToolsAreTools | src/apps/daemon/touch.hpp:447-453 | The tool that a touchpad reports counts the indices of the frame, up to five |
| TouchSafety.FrameKeepsBacked | src/apps/daemon/touch.hpp:262-324 | After a frame that is not blocked, BTN_TOUCH is pressed if and only if the singletouch contact was shown in it |
| TouchSafety.PalmReleasesEverything | src/apps/daemon/touch.hpp:140-148 | A frame with an invalid contact releases everything when palms block the device (also src/apps/daemon/touch.hpp:247-255) |
| TouchSafety.SlotsStayInRange | src/apps/daemon/touch.hpp:116-117 | No slot above the largest index of the run is ever written |
| TouchSafety.TrackedTouchesAreSafe | src/apps/daemon/touch.hpp:31 | With the indices of the tracker and at most nine contacts, all slots are among those the device declares, and singletouch and multitouch agree (also src/contacts/tracking/tracker.hpp:44-99) |
| Stylus.StylusDevice.Update | src/apps/daemon/stylus.hpp:82-116 | Keys and axes after a sample, with nothing left unreported |
| Stylus.PenHasOneTool | src/apps/daemon/stylus.hpp:82-116 | In every run, no key is pressed while the stylus is inactive; otherwise keys and axes are exactly those of the last sample, with one tool, at the nearest position, pressure and tilt on the declared axes |
| Stylus.SampleIsShown | src/apps/daemon/stylus.hpp:90-111 | Which keys a sample presses, and the nearest values on axes up to 9600, 7200 and 4096 and for the tilt in hundredths of a degree (also src/apps/daemon/stylus.hpp:167-187) |
| Stylus.SpotIsHeld | src/apps/daemon/stylus.hpp:90-111 | While the stylus is away, the axes stay where it was last active |
| Stylus.ToolSwitchLifts | src/apps/daemon/stylus.hpp:86-88 | Between two active samples with different tools there is one at which the stylus was lifted |
| Daemon.Daemon.OnTouch | src/apps/daemon/daemon.hpp:57-69 | Touch is enabled again if the stylus has gone, and then gets the frame |
| Daemon.Daemon.OnStylus | src/apps/daemon/daemon.hpp:79-90 | Touch is disabled by any stylus sample, and then the stylus gets the sample |
| Daemon.RunIsSafe | src/apps/daemon/daemon.hpp:57-90 | Over all sequences of events both devices stay consistent with the kernel, and touch is off only where a stylus can turn it off |
| Daemon.ActiveStylusSilencesTouch | src/apps/daemon/daemon.hpp:57-90 | When the stylus excludes touch, an active stylus means that touch is disabled, no slot is active and BTN_TOUCH is released |
| Daemon.TouchComesBack | src/apps/daemon/daemon.hpp:62-68 | In the first frame after the stylus has left, if it is stable and not blocked, the active slots are exactly those of its contacts on the screen |
| HidItems.OpsAgree | android/ipts_detector.cpp:242-316 | The two parsers read all item headers alike, except for the four kinds of items that only the tree parser knows (also src/hid/parser.hpp:100-192) |
| HidFlat.FlatParser.ParseHidDescriptor | android/ipts_detector.cpp:187-320 | The parser state after any descriptor is that of stepping through its complete items |
| HidFlat.FlatParser.FindOrCreateReport | android/ipts_detector.cpp:131-156 | The report with the key, made if it is missing and there is room |
| HidFlat.FlatParserGroupsFields | android/ipts_detector.cpp:131-176 | Within its capacities the table has one report per key, with the bits of all its declared fields modulo 2^32 and their non-zero usages |
| HidFlat.FlatParser.HasModesettingReport | android/ipts_detector.cpp:340-361 | True if and only if there is a feature report of eight bits with the set-mode usage |
| HidFlat.FlatParser.HasTouchDataReport | android/ipts_detector.cpp:369-389 | True if and only if there is an input report with both usages |
| HidTree.TreeParser.Parse | src/hid/parser.hpp:63-72 | The collections after any descriptor, and its exceptions, are those of stepping through its items |
| HidTree.TreeParser.CreateOrGetReport | src/hid/parser.hpp:270-305 | The report of the current collection with the key, made if it is missing |
| HidTree.TreeParserKeepsFields | src/hid/parser.hpp:100-332 | For balanced descriptors no field and no collection is lost or made up, whatever the nesting: the tree holds exactly those that were declared |
| HidSimulation.TableSummarisesTree | android/ipts_detector.cpp:131-320 | The flat table has a report for a key exactly if the tree has a field with it, with the size of all reports of that key modulo 2^32, and with exactly their non-zero usages (also src/hid/parser.hpp:100-332) |
| HidSimulation.TouchDataIsFound | android/ipts_detector.cpp:369-389 | A touch data report of the tree is also found by the flat parser (also src/ipts/protocol/descriptor.hpp:32-43) |
| HidSimulation.TouchDataAgrees | android/ipts_detector.cpp:369-389 | If each key is used in one collection only, both find touch data or neither does (also src/ipts/protocol/descriptor.hpp:32-43) |
| HidSimulation.SetModeAgrees | android/ipts_detector.cpp:340-361 | If feature reports are whole bytes too, both find a set-mode report or neither does (also src/ipts/protocol/descriptor.hpp:45-55) |
| HidSimulation.CollectionsAgree | android/ipts_detector.cpp:254-282 | The flags of the flat parser tell exactly which Application collections the tree has (also src/ipts/protocol/descriptor.hpp:66-84) |
| HidSimulation.DetectorsAgree | android/ipts_detector.cpp:445-461 | On the same items, under these conditions, both find what makes a device acceptable, and the same type (also src/ipts/device.hpp:76-116) |
| HidDetection.FlatDetect | android/ipts_detector.cpp:436-461 | Whether the flat parser accepts the bytes of a descriptor, and as which type |
| HidDetection.TreeDetect | src/ipts/device.hpp:71-116 | Whether the tree parser accepts the bytes of a descriptor, and as which type; an exception rejects it |
| HidDetection.FlatVerdictByItems | android/ipts_detector.cpp:445-461 | Within the capacities of the table: the flat parser accepts a device if and only if the fields it declares make up a feature report of eight bits (modulo 2^32) with usage 0xFF0000C8 and an input report with usages 0x0D0056 and 0x0D0061; it is a touchscreen if and only if an Application collection with usage 0x0D0004 is opened and none with 0x0D0005, and a touchpad the other way round |
| HidDetection.TreeVerdictByTree | src/ipts/device.hpp:71-116 | The same for the tree parser, over the fields and collections of the tree that the complete descriptor is parsed to, with one byte, rounded up, instead of eight bits, and collections of any type (also src/ipts/protocol/descriptor.hpp:29-84) |
| HidDetection.TreeTypeByItems | src/ipts/device.hpp:101-116 | Which collections the tree has, by what a balanced descriptor of plain items opens |
| HidDetection.VerdictsAgreeExactly | android/ipts_detector.cpp:218-219 | Under these conditions both accept or reject the bytes, with the same type, if and only if the descriptor is not cut off or the flat parser rejects it |
| HidDetection.CutOffDescriptor | android/ipts_detector.cpp:218-219 | The tree parser rejects every descriptor that is cut off, while the flat parser judges its complete items (also src/hid/parser.hpp:100-120) |
| HidDetection.ItemsRoundTrip | src/hid/parser.hpp:100-120 | Items that are written as bytes are read back |
| HidDifferences.TableTouchDataExactly | android/ipts_detector.cpp:369-389 | Without that condition: the flat parser finds touch data if and only if reports with one key have both usages between them, the tree parser if and only if one report has both (also src/hid/descriptor.hpp:34-47) |
| HidDifferences.TableSetModeExactly | android/ipts_detector.cpp:340-361 | The flat parser asks for eight bits over all reports with the key, the tree parser for one byte, rounded up, in the report (also src/hid/report.hpp:75-79) |
| HidDifferences.CutOffIsAccepted | android/ipts_detector.cpp:218-219 | The bytes of a descriptor that is cut off, accepted by the flat parser only |
| HidDifferences.SplitReportIsMissed | src/hid/parser.hpp:270-305 | The bytes of a descriptor with touch data split over two collections, found by the flat parser only |
| HidDifferences.OneBitModeIsMissed | android/ipts_detector.cpp:340-361 | The bytes of a descriptor with a set-mode report of one bit, found by the tree parser only |
| ByteReader.Reader.Sub | src/common/reader.hpp:148-151 | A chunk of its own with the next bytes, or the error and an unchanged cursor |
| ByteReader.Reader.Read | src/common/reader.hpp:79-89 | The next bytes; nothing can be read from an exhausted reader, not even nothing |
| IptsParser.Parser.Parse | src/ipts/parser.hpp:60-84 | State, callbacks and error for any buffer are those of the specification, whose contents the round trips below fix; all spans lie in the buffer, in order and apart |
| IptsParser.Parser.ParseHidFrame | src/ipts/parser.hpp:94-132 | One frame, with the wrapping payload size and the workaround for short packets; the recursion ends |
| IptsParser.Parser.ParseLegacyFrame | src/ipts/parser.hpp:153-171 | The announced number of groups, or the first error |
| IptsParser.Parser.ParseReportFrame | src/ipts/parser.hpp:210-241 | One report, in a chunk of its own |
| IptsParser.Parser.ParseStylus | src/ipts/parser.hpp:265-348 | The last of the announced samples |
| IptsParser.Parser.ParseDftWindow | src/ipts/parser.hpp:420-439 | Two lists of rows, with the group of the metadata report that announced them |
| IptsSafety.HidFrameIsGood | src/ipts/parser.hpp:94-171 | Whatever the bytes are, callbacks get spans within the chunk of their frame, at increasing offsets and without overlap, holding the bytes that are there (also src/ipts/parser.hpp:210-252) |
| IptsSafety.BufferIsGood | src/ipts/parser.hpp:78-84 | The same for whole buffers |
| IptsSafety.SessionHeatmapsFit | src/ipts/parser.hpp:361-410 | Over any number of buffers, every heatmap has exactly rows times columns bytes by the latest dimensions report, even one in an earlier buffer |
| IptsFrames.FrameDecodes | src/ipts/parser.hpp:94-171 | Parsing an encoded frame reads the payloads in it in order, however they are nested in frames, legacy groups and reports, and stops at the first that fails |
| IptsFrames.BufferDecodes | src/ipts/parser.hpp:60-84 | The same for a buffer with a header |
| IptsReports.ReadsBack | src/ipts/parser.hpp:210-241 | Every record that is written as its struct is laid out, in a report of its type, is read back: heatmap dimensions and data, stylus samples of both versions, DFT metadata and windows, buttons (also src/ipts/parser.hpp:265-478) |
| IptsReports.Decodes10 | src/ipts/protocol/stylus.hpp:69-91 | The twelve bytes of an MPP 1.0 sample give its bits, position, and pressure out of 1024 (also src/ipts/parser.hpp:277-297) |
| IptsReports.Decodes151 | src/ipts/protocol/stylus.hpp:98-128 | The sixteen bytes of an MPP 1.51 sample give its bits, position, pressure out of 4096, timestamp and angles (also src/ipts/parser.hpp:323-346) |
| IptsReports.ReportsRoundTrip | src/ipts/parser.hpp:210-252 | A buffer with any list of reports tells what their records tell, one after the other, at their places |
| IptsReports.HeatmapRoundTrip | src/ipts/parser.hpp:361-391 | Byte for byte: a dimensions report and the heatmap that follows it give a heatmap with these rows, columns, limits and pixels; a highest value of zero counts as 255 (also src/ipts/protocol/heatmap.hpp:15-57) |
| IptsReports.HeatmapFrameRoundTrip | src/ipts/parser.hpp:402-408 | Byte for byte: a heatmap frame gives its pixels, with the dimensions last announced |
| IptsReports.MetadataRoundTrip | src/ipts/parser.hpp:181-201 | Byte for byte: a metadata frame tells rows, columns, width, height and mirrored axes, or fails if rows or columns do not fit a byte (also src/ipts/protocol/metadata.hpp:15-66) |
| IptsReports.LegacyRoundTrip | src/ipts/parser.hpp:153-171 | Byte for byte: a group of a legacy frame is read if and only if it has stylus or touch data (also src/ipts/protocol/legacy.hpp:23-63) |
| IptsFrames.ReportsBeforeFourBytesAreDropped | src/ipts/parser.hpp:112-127 | A frame of reports is passed over exactly when four bytes follow it |
| Recording.Capture.Write | src/core/linux/device/capture.hpp:68-89 | A record is appended: its size as a 64 bit number, and its bytes |
| Recording.FileDevice.Read | src/core/linux/device/file.hpp:99-127 | The next record, or the error; at the end of the data the cursor is back at the first record |
| Recording.HeaderRoundTrip | src/core/linux/device/capture.hpp:52-54 | Device information and descriptor are read back, if and only if the descriptor is not empty or a record follows (also src/core/linux/device/file.hpp:38-51) |
| Recording.ReplayRoundTrip | src/core/linux/device/capture.hpp:68-89 | A pass over a recording reads all records in order, then the end of the data, and rewinds; it is complete if and only if the last record is not empty (also src/core/linux/device/file.hpp:99-127) |
| Recording.EveryPassIsTheSame | src/core/linux/device/file.hpp:105-109 | All later passes read the same records |
| Supervisor.DeviceManager.AllocInstance | android/device_manager.cpp:232-247 | A slot that is not in use, or none if and only if all eight are |
| Supervisor.DeviceManager.Spawn | android/device_manager.cpp:252-299 | The device has an instance afterwards unless the table is full or the fork failed; no other slot changes |
| Supervisor.DeviceManager.ScanAndReconcile | android/device_manager.cpp:517-605 | Instances whose device is gone are signalled, in order; running ones are left alone; new ones belong to devices that were found; every device that was found has an instance, or the table is full, but for one device at most for each fork that failed; the result is the number of children |
| Supervisor.DeviceManager.ReapChildren | android/device_manager.cpp:607-637 | All children that had exited are reaped and exactly their slots are freed; no child is ever unknown |
| Supervisor.DeviceManager.KillAll | android/device_manager.cpp:639-692 | Every instance gets SIGTERM, only own children get SIGKILL, and afterwards no child remains and the table is empty |
| Supervisor.DeviceManager.HandleResume | android/device_manager.cpp:694-739 | Afterwards every instance is new and serves a device that was just found, and every device that was found is served, or the table is full, but for one at most for each fork that failed; the processes from before were asked to terminate, or killed |
| Supervisor.DeviceManager.Handle | android/device_manager.cpp:757-842 | Every event keeps the table, and what it does: lost children are reaped and arm a scan, a change of a name that starts with hidraw arms it too, an armed timer rescans, a tick rescans everything anew if the time in suspend grew by a second or more; nothing else changes |
| Supervisor.GoneAreTerminated | android/device_manager.cpp:527-541 | Exactly the processes whose device is gone are sent SIGTERM |
| Supervisor.Supervise | android/main.cpp:71-119 | After the first scan every event is handled in turn, unless it gives up because it cannot scan or finds neither a device nor a driver; and however it ends, over all exits and failed forks, no process is left behind |
| Supervisor.System.Kill | android/device_manager.cpp:539 | A signal can only be sent to a child that was not reaped, which all callers prove (also android/device_manager.cpp:652, android/device_manager.cpp:683) |
| Supervisor.SlotFreed | android/device_manager.cpp:627-628 | Freeing a slot takes exactly its pid out of the active ones |
| Supervisor.SlotTaken | android/device_manager.cpp:285-292 | Using a free slot adds exactly its pid, and keeps pids and paths distinct |
| Supervisor.PidCardinality | android/device_manager.cpp:596-604 | There are as many children as active slots, so at most eight |

## Left out

- Floating point: rounding, infinities and not-a-number as data. The infinities that mark used entries of the distance matrix are a marker of their own.
- Fitting.Fit: every iteration solves its own least squares problem; that repeated iterations improve the fit is not claimed, as the weights change in between.
- GaussianFit.FitCoefficients: between the two conditions for a pivot threshold above zero there is a gap of a factor of at most 32, in which the order of the rows decides.
- WeightMaps.UpdateWeightMaps: pixels that no valid box covers have no weight to normalise.
- Overlaps.EnoughRounds: the detector allows five rounds, so complete merging is proved for up to six clusters only.
- Overlaps.BoxIsLostExactly: says which boxes the result is made of; the pixels of a box that is lost may be covered by chance.
- Touch.TouchDevice.Update: the narrowing of an index to 32 bits and the range check of slots in the kernel are not modelled; `TouchSafety.TrackedTouchesAreSafe` shows that slots stay in range.
- Convolution.Run3x3: heatmaps of a single row or column, for which the unrolled form is not made.
- IptsParser.Parser.Parse: all callbacks are taken to be set, and sizes to be 64 bits wide.
- Recording.Open: a descriptor that does not fit the 4096 bytes of its buffer, which the original does not check for, is an error.
- Stylus.SampleIsShown: sine, cosine and arctangent are parameters.
- IptsReports.Decodes151: the angles stay in hundredths of a degree; the conversion to radians is not modelled.
- Supervisor.DeviceManager.ScanAndReconcile: /dev is taken as unchanging during one scan; it is arbitrary for each scan.
- Supervisor.DeviceManager.KillAll: waiting for a killed child is taken to succeed, that is, not to be interrupted by a signal.
- Supervisor.Supervise: epoll, inotify, timer and signal descriptors are events; reloading the kernel modules and sleeping have no effect on the modelled state.
- IptsFrames.FrameDecodes: frames, groups and reports without payload at the end of their chunk are excluded, because the reader refuses to read nothing from nothing.
- HidSimulation.TableSummarisesTree: descriptors with Push, Pop or usage ranges, with report IDs or collection types above one byte, or beyond the capacities of the table, on which the two parsers differ by construction.
- HID items that neither detection uses, such as logical and physical ranges, are skipped by both models.
- The five by five convolution (`optimized/convolution.5x5-extend.hpp`), which the detector does not use.
- The neutral value of a heatmap, and turning a fitted Gaussian into an ellipse, which rests on the eigenvalue solver of Eigen.
- DFT stylus processing (`core/generic/dft.hpp`), which is dominated by trigonometry.
- `TouchDevice::process_singletouch`, which is never called.
- Configuration files, device setup, system calls, the calibration, performance and visualisation programs, packaging and SELinux policy.
