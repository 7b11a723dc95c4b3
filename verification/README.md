# Verified models of the cat-watching services

This project models, in Dafny 4.11, the parts of the system that hold real algorithms or protocols, and
proves what they are relied on for. It covers the centroid tracker, the MJPEG splitter and the two
multipart writers that feed it, the zone test, the broadcaster of annotated frames, the detection
pipeline with its alert cooldown, the get-or-create of cat identities, the pan/tilt estimate, and the
hub's list of trackers.

`dafny verify dfyconfig.toml` checks everything. Each file opens with a comment that says what it holds:

| file | contents |
|---|---|
| `Common.dfy` | types that several parts share |
| `Matching.dfy` | greedy matching, on sets of candidate pairs |
| `Tracker.dfy`, `TrackerOutcome.dfy`, `TrackerRuns.dfy` | one tracker update, as a specification and as a class; what it may make of the table, by distances alone; whole runs of updates |
| `Splitter.dfy`, `Multipart.dfy`, `MultipartReader.dfy` | the chunked frame splitter; the two writers and the round trip; a reader that goes by the headers |
| `Zones.dfy`, `Segments.dfy`, `Convex.dfy` | point in polygon over the reals; where its answer changes; which points of a convex polygon it accepts |
| `Broadcaster.dfy` | drop-oldest queues; interleaved runs of one publisher and many subscribers |
| `Pipeline.dfy`, `PipelinePlan.dfy`, `PipelineRuns.dfy` | one frame, with any outside call free to raise; the frame as a list of effects cut short by the first failure; whole runs of frames |
| `Cats.dfy` | the unique table, one writer among others, any number of interleaved writers |
| `Ptz.dfy` | rounded relative moves against a tracked estimate |
| `LatestPerCat.dfy` | the latest detection of each cat, sorted |

Objects that the services update in place are classes with those fields, and their methods are proved
equal to specification functions. The runs in `TrackerRuns` and `PipelineRuns` are runs of those same
functions. `BroadcasterRuns` and `CatProtocol` are separate machines, since there the point is that other
tasks act in the middle of an operation: `BroadcasterRuns` shares the queue's specification with the class,
and a publish or subscription that nothing overtakes is proved to do what the class's methods do
(`BroadcasterRuns.PublishMatches`, `BroadcasterRuns.SubscribeMatches`); `CatProtocol` shares the table with
`CatRepository` and nothing else.

The specification functions say what the code does, case by case. What they come to is then stated without
them: an update by distances and ages (`TrackerOutcome.StepsAreOutcomes`), the splitter by bytes
(`Splitter.FramesAreTheImages`), a frame of the pipeline by its list of effects
(`PipelinePlan.FrameRefines`), a move by half units (`Ptz.MoveIsMove`), a queue by its length, and so on.

Where the program leaves an order open (walking a set, equally distant candidates), the model leaves it
open too and the results hold for every order. Outside calls are given a script that says whether each
works, raises before its effect, or raises after it.

## Where the code and its documentation differ

- The tracker is described as deterministic. It is so if the order in which a set is walked is taken as
  given; it is unspecified, and which of several equally near candidates is matched depends on it.
  `Matching.WalksAgreeIffStrict` says exactly when it does not matter, and `TrackerRuns.TiesShowInTheTable`
  gives one table and one frame's detections from which two walks lead to different tables.
- A mapping returned by the tracker is a shallow copy: ids, centroids and boxes in it are stable, ages
  are not. `TrackerRuns.HoldSnapshot` says which ages move, and how far, and `TrackerRuns.HeldAgesMove` is
  a case in which all do.
- The splitter is described as cutting out each image between its markers. It ends an image at the first
  end marker, so what is written comes back exactly when each frame is a single image without an inner
  one (`Multipart.RoundTripIff`); a frame with an embedded thumbnail is cut short
  (`Multipart.EmbeddedImageCutsShort`).
- The cooldown is meant to keep the webhook from being called every frame. It bounds the marks. Calls and
  marks are equally many exactly if no fire is stranded, that is, was due and stored its row and did not get
  to its mark (`PipelineRuns.PostsAreMarksIff`); each stranded fire adds one call to the bound
  (`PipelineRuns.PostsPerWindow`). After such a fire the next frame calls again
  (`PipelineRuns.SecondPostIff`), and `PipelineRuns.WebhookCallsUnbounded` is a run without bound, in which
  the outcome of an accepted call cannot be stored.
- A detection row is described as an observation. Every live track stores one per frame, also while it is
  unseen: the rows outnumber the detections by the unseen tracks (`PipelineRuns.RowsBeyondDetections`), and
  a track's row is of a detection iff the track's age is 0 (`PipelineRuns.RowIsObservationIff`).
- Calibrating is meant to resynchronise the pan/tilt estimate. The motor is sent home before the lock is
  taken, and the estimate is off afterwards by just what was sent to the motor in between, since it was
  last sent home (`Ptz.CalibrationMissesBy`): it is right iff that cancels out. `Ptz.CalibrationOffByThree` is a case in
  which it does not, and moving on does not mend it (`Ptz.OffsetPersists`).
- A lost race for a cat row is meant to be settled by selecting the winner. The error can be raised again
  exactly for writers whose key has no row while their drawn id is a row's, or drawn for another key as
  well (`CatProtocol.ReraiseIffCollision`); with fresh, distinct draws it never is
  (`CatProtocol.FreshDrawsNeverReraise`).

## Model

| member | source | states |
|---|---|---|
| `Matching.GreedyIsMatching` | cat-sentinel/app/vision/tracker.py:68-76 | the pairs taken by the scan share no track and no detection, and are candidates |
| `Matching.GreedyIsStable` | cat-sentinel/app/vision/tracker.py:66-76 | every candidate passed over shares an endpoint with one taken at no larger a distance |
| `Matching.EveryStableMatchingIsGreedy` | cat-sentinel/app/vision/tracker.py:66-76 | conversely, each stable matching is what the scan takes for some order of the ties |
| `Matching.AtLeastHalfOfOptimum` | cat-sentinel/app/vision/tracker.py:55-76 | no matching within the distance limit has more than twice as many pairs |
| `Matching.HalfIsAttained` | cat-sentinel/app/vision/tracker.py:55-76 | the factor two cannot be improved |
| `Matching.StrictlyStableIsUnique` | cat-sentinel/app/vision/tracker.py:66-76 | if every pair passed over lost to a strictly nearer one, there is no other stable matching |
| `Matching.OrderIndependentIffStrict` | cat-sentinel/app/vision/tracker.py:57-76 | given one outcome: every other order of the ties gives it, too, exactly if every pair passed over lost to a strictly nearer one |
| `Matching.WalksAgreeIffStrict` | cat-sentinel/app/vision/tracker.py:57-76 | for all orders in which the nested loops can walk tracks and detections: the matched pairs are the same exactly if some matching has every candidate outside it lose to a strictly nearer one |
| `Matching.TiesMatter` | cat-sentinel/app/vision/tracker.py:57-76 | a tie for which two orders of walking the detections give different matches |
| `Matching.DistinctDistancesDecide` | cat-sentinel/app/vision/tracker.py:57-76 | in particular if candidates that share an endpoint are never equally distant |
| `Tracker.CentroidTracker.Update` | cat-sentinel/app/vision/tracker.py:41-89 | the whole new table is one step of the specification under some walking order; matched and new tracks are new objects, unmatched ones stay the same object; every object there before is aged by one unless its track was matched; no track moves farther than the distance limit, and a detection given a new id is beyond it from every track left where it was |
| `Tracker.CentroidTracker.CandidatePairs` | cat-sentinel/app/vision/tracker.py:57-64 | lists each track/detection pair within reach once, and no other |
| `Tracker.CentroidTracker.SortByDistance` | cat-sentinel/app/vision/tracker.py:66 | same pairs, nearest first |
| `Tracker.CentroidTracker.MatchGreedily` | cat-sentinel/app/vision/tracker.py:68-76 | takes the pairs of the greedy scan and replaces just those tracks |
| `Tracker.CentroidTracker.CreateTracks` | cat-sentinel/app/vision/tracker.py:82-86 | each detection left over gets one track, under the next ids |
| `Tracker.CentroidTracker.AgeUnmatched` | cat-sentinel/app/vision/tracker.py:91-99 | ages just the given tracks in place, dropped ones too, and drops those past the limit |
| `TrackerModel.StepAt` | cat-sentinel/app/vision/tracker.py:52-99 | what an update leaves under each id: new, matched, or one update older |
| `TrackerModel.StepWellFormed` | cat-sentinel/app/vision/tracker.py:34-35 | ids stay below the next id and ages within the limit |
| `TrackerOutcome.StepsAreOutcomes` | cat-sentinel/app/vision/tracker.py:41-99 | over all orders of its walks, an update can leave just these tables: each detection under one id, new ids consecutive and all used, the rest one update older or gone past the limit, none given beyond the distance limit, and of a track and a detection within it one is given to something no farther |
| `TrackerOutcome.StepKeepsLimit` | cat-sentinel/app/vision/tracker.py:55-86 | the tracks that take over a detection are the matched ones and move no farther than the limit; a detection under a new id is farther than the limit from every track that takes over none |
| `TrackerRuns.EveryDetectionHasOneTrack` | cat-sentinel/app/vision/tracker.py:70-86 | after an update each detection is held by exactly one track, with its centroid and box |
| `TrackerRuns.SeenCount` | cat-sentinel/app/vision/tracker.py:70-99 | exactly as many tracks have age 0 as there were detections |
| `TrackerRuns.SeenIffAssigned` | cat-sentinel/app/vision/tracker.py:70-99 | a live track has age 0 iff the update gave it a detection |
| `TrackerRuns.UnseenCount` | cat-sentinel/app/vision/tracker.py:70-99 | live tracks are as many as the detections and the unseen tracks together |
| `TrackerRuns.GoneForGood` | cat-sentinel/app/vision/tracker.py:84-85 | an issued id that is not live never becomes live again |
| `TrackerRuns.LifetimeIsUnbroken` | cat-sentinel/app/vision/tracker.py:82-99 | an id live at two updates is live at all between: ids are not reused |
| `TrackerRuns.NewIdsAreUnused` | cat-sentinel/app/vision/tracker.py:84-86 | an id that appears was in no earlier result |
| `TrackerRuns.UnseenTrackLivesOut` | cat-sentinel/app/vision/tracker.py:91-99 | a track seen at update k and never matched again is in the results of updates k to k + limit, unchanged but for its age, and in no later one |
| `TrackerRuns.LiveTracksBounded` | cat-sentinel/app/vision/tracker.py:48-99 | live tracks never outnumber the detections of the last limit + 1 updates, and equal them if nothing was ever matched |
| `TrackerRuns.FewNewIds` | cat-sentinel/app/vision/tracker.py:78-86 | new ids are issued for at most the detections less half the largest possible match |
| `TrackerRuns.ExistingTracksDecided` | cat-sentinel/app/vision/tracker.py:52-89 | under strict stability walking order shows only in which new detection gets which new id |
| `TrackerRuns.TiesShowInTheTable` | cat-sentinel/app/vision/tracker.py:52-89 | a table with one track, and two detections equally far from it: two valid updates with those detections leave different tables |
| `TrackerRuns.HoldSnapshot` | cat-sentinel/app/vision/tracker.py:50-99 | a mapping returned earlier keeps ids, centroids and boxes through any later updates; the age of an object still tracked grows by one per update until its track is matched or dropped, so it moves iff the first update leaves the track unmatched; released objects do not change at all |
| `TrackerRuns.HeldAgesMove` | cat-sentinel/app/vision/tracker.py:48-99 | after an update without detections every age in the mapping held is one more |
| `Splitter.Frames` | cat-sentinel/app/streaming/client.py:35-56 | after every chunk, the frames yielded so far are those of a one-shot parse of the bytes so far |
| `Splitter.Drain` | cat-sentinel/app/streaming/client.py:41-56 | one scan takes out every complete frame and keeps just what a parse would |
| `Splitter.ParseConcat` | cat-sentinel/app/streaming/client.py:40-56 | parsing in two pieces, carrying over only the trimmed buffer, is parsing the whole, wherever the cut is |
| `Splitter.KeptShape` | cat-sentinel/app/streaming/client.py:43-53 | what is kept is at most two bytes, or begins an image that has not ended |
| `Splitter.FindIsFirst` | cat-sentinel/app/streaming/client.py:42-49 | the search returns the first marker from a position, or that there is none |
| `Splitter.ParseWeave` | cat-sentinel/app/streaming/client.py:41-56 | whole images with marker-free gaps between them are taken out exactly |
| `Splitter.FramesAreThePieces` | cat-sentinel/app/streaming/client.py:28-34 | the frames are those of any way to split the stream into images, gaps and an unfinished tail, and there is a way |
| `Splitter.FramesAreTheImages` | cat-sentinel/app/streaming/client.py:11-56 | in bytes: the frames are those images, from 0xFF 0xD8 to the first 0xFF 0xD9, into which the stream can be split with filler that has no 0xFF 0xD8 and a tail in which none ends |
| `Splitter.ImagesOfChunks` | cat-sentinel/app/streaming/client.py:27-56 | through any chunks just these images come out, in order |
| `Splitter.KeptBytes` | cat-sentinel/app/streaming/client.py:42-53 | what is kept while no image has ended: all from the first 0xFF 0xD8, or else the last two bytes |
| `Multipart.WriteCameraStream` | camera/app/camera/router.py:52-61 | writes one part per polled frame, leaving out missing frames and consecutive repetitions |
| `Multipart.WriteAnnotatedStream` | cat-sentinel/app/streaming/router.py:20-26 | writes one part per frame taken from the queue |
| `Multipart.PresentIs` | camera/app/camera/router.py:54-55 | the frames considered are those of the polls that gave one, in order |
| `Multipart.DecimalDenotes` | camera/app/camera/router.py:60 | the length written in a part's header denotes the length of its frame |
| `Multipart.CollapseStutters` | camera/app/camera/router.py:55-56 | leaving out repetitions leaves none and loses nothing else |
| `Multipart.CollapseIsUnique` | camera/app/camera/router.py:55-56 | and there is only one result of that kind |
| `Multipart.PartsParse` | cat-sentinel/app/streaming/client.py:30-33 | after any text, the splitter returns exactly the images written |
| `Multipart.RoundTripIff` | camera/app/camera/router.py:57-61 | what is written comes back from the splitter exactly when each frame is one whole image, from 0xFF 0xD8 to its only 0xFF 0xD9 |
| `Multipart.EmbeddedImageCutsShort` | cat-sentinel/app/streaming/client.py:47-56 | a frame with an end marker before its end comes back cut after that marker |
| `Multipart.CameraToDetector` | cat-sentinel/app/streaming/client.py:27-56 | through any chunking the detector receives the distinct polled frames, in order |
| `Multipart.PartPrefixFree` | camera/app/camera/router.py:57-61 | a part, with its length, tells where it ends: what follows can be told from it |
| `Multipart.PartsInjective` | camera/app/camera/router.py:57-61 | a multipart stream has one list of frames behind it, whether images or not |
| `MultipartReader.ReaderGetsAll` | camera/app/camera/router.py:57-61 | a reader that expects the boundary, reads header lines and goes by the content length gets back every list of frames, images or not |
| `Zones.PointInPolygon` | cat-sentinel/app/zones/service.py:19-32 | the loop returns the parity of the crossings of the closed ring |
| `Zones.TogglesIffCrosses` | cat-sentinel/app/zones/service.py:27-30 | the guarded test with its division is: one end below, and the point not right of the edge |
| `Zones.SmallRingsContainNothing` | cat-sentinel/app/zones/service.py:22-23 | rings of fewer than three points contain nothing by the same parity |
| `Zones.RotationInvariant` | cat-sentinel/app/zones/service.py:24-31 | starting at another vertex does not change the answer |
| `Zones.ReversalInvariant` | cat-sentinel/app/zones/service.py:24-31 | nor does walking the other way |
| `Zones.InsertionInvariant` | cat-sentinel/app/zones/service.py:24-31 | nor does a vertex inserted on an edge |
| `Zones.ClosingInsertionInvariant` | cat-sentinel/app/zones/service.py:24-31 | nor one on the edge that closes the ring |
| `Zones.ChordSplit` | cat-sentinel/app/zones/service.py:19-32 | cutting along any chord makes the answer the exclusive or of the two parts |
| `Zones.FanParity` | cat-sentinel/app/zones/service.py:19-32 | inside iff an odd number of the triangles of the fan contain the point |
| `Zones.RingStraddlesEvenly` | cat-sentinel/app/zones/service.py:25-27 | a closed ring passes any level an even number of times |
| `Zones.OutsideBoxIsOutside` | cat-sentinel/app/zones/service.py:27-30 | nothing outside the bounding box, or on its left or bottom side, is inside |
| `Zones.TriangleIsHalfPlanes` | cat-sentinel/app/zones/service.py:19-32 | off the lines of its edges a triangle contains just the points on one side of all three |
| `Zones.OutsideTriangle` | cat-sentinel/app/zones/service.py:19-32 | a counterclockwise triangle contains no point outside it, even on the lines of its edges |
| `Zones.OutsideTriangleClockwise` | cat-sentinel/app/zones/service.py:19-32 | likewise a clockwise one |
| `Zones.PolygonIsHalfPlanes` | cat-sentinel/app/zones/service.py:12-32 | for any polygon and a point off the lines of its fan, the answer is the parity of fan triangles containing it by half-planes |
| `Segments.DifferIffOddCrossings` | cat-sentinel/app/zones/service.py:12-32 | for any polygon and two points whose segment touches no edge without crossing it: just one is inside iff an odd number of edges cross the segment |
| `Segments.ConstantOffBoundary` | cat-sentinel/app/zones/service.py:12-32 | the answer is the same for two points with no edge between them |
| `Convex.ConvexContains` | cat-sentinel/app/zones/service.py:19-32 | a counterclockwise convex polygon contains just the points strictly left of, or on the included side of, each of its edges: boundary and corners decided |
| `Convex.FlatConvexContains` | cat-sentinel/app/zones/service.py:19-32 | the same for either orientation, and with further vertices on the edges |
| `Convex.ConvexIsOneSide` | cat-sentinel/app/zones/service.py:19-32 | off the lines of its edges a convex polygon of either orientation contains just the points on one side of them all |
| `Zones.RectangleIsHalfOpen` | cat-sentinel/app/zones/service.py:27-30 | an upright rectangle contains its right and top sides and not its left and bottom ones |
| `Broadcaster.AnnotatedFrameBroadcaster.Publish` | cat-sentinel/app/streaming/broadcaster.py:27-38 | every subscriber's queue gets the frame; its oldest item goes exactly if it is bounded and holds as many as it may; nothing else changes |
| `Broadcaster.AnnotatedFrameBroadcaster.Subscribe` | cat-sentinel/app/streaming/broadcaster.py:40-46 | a new queue holding the latest frame, if any, is entered |
| `BroadcasterRuns.QueueIsSuffix` | cat-sentinel/app/streaming/broadcaster.py:31-38 | in any interleaving a queue is the end of what was offered, within its limit, and offered = delivered + dropped + queued |
| `BroadcasterRuns.DropsIffFull` | cat-sentinel/app/streaming/broadcaster.py:31-38 | in any interleaving, a frame is dropped exactly at a publish that finds as many waiting as may |
| `BroadcasterRuns.KeepingUpLosesNothing` | cat-sentinel/app/streaming/broadcaster.py:31-38 | a subscriber that never has that many waiting at a publish loses no frame |
| `BroadcasterRuns.DeliveredInOrder` | cat-sentinel/app/streaming/broadcaster.py:27-46 | delivered frames are published ones in order of publication, strictly unless a publish waited throughout the subscription |
| `BroadcasterRuns.GapsAndRepetitions` | cat-sentinel/app/streaming/broadcaster.py:28-46 | exactly when no frame is offered to a subscriber twice, and when none is left out |
| `BroadcasterRuns.DeliveredTwiceIff` | cat-sentinel/app/streaming/broadcaster.py:28-46 | a frame is delivered twice exactly if the subscriber was entered before the publish it had the frame of was over, and then got its first two offers |
| `BroadcasterRuns.RepetitionHappens` | cat-sentinel/app/streaming/broadcaster.py:28-45 | a run, with the lock contended, in which a frame is queued twice |
| `BroadcasterRuns.UncontendedRunsAreContiguous` | cat-sentinel/app/streaming/broadcaster.py:27-50 | with the lock free, queues are contiguous stretches ending at the latest frame and deliveries strictly increase |
| `BroadcasterRuns.SubscribersAreIndependent` | cat-sentinel/app/streaming/broadcaster.py:10-13 | a subscriber's fate depends on the publisher and itself only |
| `BroadcasterRuns.PublishMatches` | cat-sentinel/app/streaming/broadcaster.py:27-38 | a publish that nothing overtakes does to the frames in a queue what the class does to its items |
| `BroadcasterRuns.SubscribeMatches` | cat-sentinel/app/streaming/broadcaster.py:40-46 | likewise a subscription, which leaves the other subscribers as they are |
| `BroadcasterRuns.ClientSeesDelivered` | cat-sentinel/app/streaming/router.py:17-26 | a client splitting the annotated stream sees the frames delivered to its queue, whole and in order |
| `Pipeline.DetectionPipeline.ProcessFrame` | cat-sentinel/app/detections/pipeline.py:84-162 | journal and cooldown table after a frame, whatever raises where |
| `PipelinePlan.FrameRefines` | cat-sentinel/app/detections/pipeline.py:84-162 | a frame writes the list of effects planned for its tracks, up to the first call that fails, and the cooldown table follows from the marks among them |
| `PipelinePlan.TrackRefines` | cat-sentinel/app/detections/pipeline.py:100-157 | likewise for one track: row and activity, then, if in a zone and due, pending alert, webhook call, status, mark and activity |
| `PipelinePlan.PublishedIff` | cat-sentinel/app/detections/pipeline.py:84-162 | a frame is published exactly if it is opened and closed, no call for its tracks fails and publishing gets through |
| `Pipeline.DetectionPipeline.FireAlert` | cat-sentinel/app/alerts/service.py:48-69 | pending row, webhook call, final status, in that order, up to what raises |
| `Pipeline.DetectionPipeline.FindZone` | cat-sentinel/app/detections/pipeline.py:103-110 | the id of the first zone whose polygon contains the point, by the crossing parity of its ring |
| `Pipeline.FirstZone` | cat-sentinel/app/detections/pipeline.py:103-110 | a zone is found iff the ring of one contains the point, and no earlier one does |
| `Pipeline.ConfidenceIsFirst` | cat-sentinel/app/detections/pipeline.py:112-114 | the confidence of the first raw detection with the track's box, zero if there is none |
| `PipelineRuns.RunsAreSound` | cat-sentinel/app/detections/pipeline.py:96-155 | at every moment of every run: ALERT activities <= marks <= alert rows <= in-danger detection rows, per cat and zone |
| `PipelineRuns.AlertHasEarlierDetection` | cat-sentinel/app/detections/pipeline.py:116-141 | every alert row has an earlier in-danger detection row of its cat and zone |
| `PipelineRuns.AlertsPerWindow` | cat-sentinel/app/alerts/service.py:28-36 | at most floor(T / cooldown) + 1 completed alerts per cat and zone in any window of length T |
| `PipelineRuns.RunsAreSpaced` | cat-sentinel/app/alerts/service.py:28-36 | over any run, marks of one cat and zone are at least the cooldown apart, and the cooldown table holds the last of each |
| `PipelineRuns.PostsIffRested` | cat-sentinel/app/detections/pipeline.py:136-142 | over any run, a cat considered in a zone whose row can be stored makes the webhook call exactly if no mark for them in the journal is less than the cooldown ago |
| `PipelineRuns.FireTrace` | cat-sentinel/app/alerts/service.py:52-69 | a fire writes a prefix of row, call, status; it completes iff the calls work and only an HTTP error, if any, came from the webhook |
| `PipelineRuns.SecondPostIff` | cat-sentinel/app/detections/pipeline.py:137-142 | over any run: after a webhook call for a cat and zone, the next time it is considered and its row can be stored, it calls again exactly if the earlier fire did not complete or the cooldown from its mark is over |
| `PipelineRuns.PostsAreMarks` | cat-sentinel/app/detections/pipeline.py:137-142 | over any run, the webhook calls for a cat and zone are its marks and its stranded fires: those that were due and stored their row but did not get to their mark |
| `PipelineRuns.PostsAreMarksIff` | cat-sentinel/app/detections/pipeline.py:137-142 | calls and marks are equally many exactly if no fire of the run is stranded |
| `PipelineRuns.MarksPerWindow` | cat-sentinel/app/alerts/service.py:28-36 | frames of any run whose clock readings lie in a window of length T, whatever came before, make at most floor(T / cooldown) + 1 marks |
| `PipelineRuns.PostsPerWindow` | cat-sentinel/app/alerts/service.py:28-36 | and at most that many webhook calls, plus one for each fire stranded in them |
| `PipelineRuns.PostsPerWindowIfComplete` | cat-sentinel/app/alerts/service.py:28-36 | so at most floor(T / cooldown) + 1 calls if every fire in those frames completes, whatever came before |
| `PipelineRuns.WebhookCallsUnbounded` | cat-sentinel/app/detections/pipeline.py:138-142 | for each n a run of frames at one instant with n webhook calls for one cat and zone |
| `PipelineRuns.PublishedFrame` | cat-sentinel/app/detections/pipeline.py:98-159 | a published frame has one box per live track, dangerous iff the ring of some zone contains the centroid, with the cat found; and one row for each that agrees with it, with the first such zone and the confidence of the first raw detection with that box |
| `PipelinePlan.DangerByHalfPlanes` | cat-sentinel/app/detections/pipeline.py:103-110 | with convex zones a box is dangerous iff the centroid is on the left of all edges of one |
| `PipelinePlan.DangerInRectangle` | cat-sentinel/app/detections/pipeline.py:103-126 | with one upright rectangle, box and row are in danger iff both coordinates are within it, and the row has that zone or none |
| `PipelineRuns.EveryLiveTrackDrawnOnce` | cat-sentinel/app/detections/pipeline.py:100-159 | each live track of the tracker's table is drawn exactly once, where the table has it |
| `PipelineRuns.RowsBeyondDetections` | cat-sentinel/app/detections/pipeline.py:87-126 | a published frame has stored as many rows as its update had detections and unseen tracks; equally many as detections iff every live track was given one |
| `PipelineRuns.RowIsObservationIff` | cat-sentinel/app/detections/pipeline.py:98-126 | each listed track has a row; a detection was given to the track iff its age is 0 |
| `PipelineRuns.UnseenTrackGetsARow` | cat-sentinel/app/detections/pipeline.py:98-126 | a frame in which nothing is detected and a row is stored |
| `PipelineRuns.RowsBoundedByRecentDetections` | cat-sentinel/app/detections/pipeline.py:87-126 | a published frame has stored no more rows than there were detections in the updates the tracker remembers |
| `CatTable.SelectFindsOne` | cat-sentinel/app/cats/repository.py:21-25 | under the constraint a select finds one row where there is one and never more |
| `CatRepository.GetOrCreate` | cat-sentinel/app/cats/repository.py:31-48 | whatever others do in between, the row of the key is returned, an existing one unchanged; an error other than the re-raise comes exactly if a call that was made fails |
| `CatProtocol.Agreement` | cat-sentinel/app/cats/repository.py:31-48 | in any interleaving all answers for a key are the same row |
| `CatProtocol.SelectsNeverFindTwo` | cat-sentinel/app/cats/repository.py:21-25 | in no interleaving does a select that works raise for more than one row |
| `CatProtocol.EveryWriterIsAnswered` | cat-sentinel/app/cats/repository.py:31-48 | in any interleaving a writer that has made four calls, or has ended, has raised another error iff one of its calls failed, and else has the row of its key, or the re-raise and then it collided from the start |
| `CatProtocol.FourCallsEnd` | cat-sentinel/app/cats/repository.py:31-48 | four calls of its own bring a writer to an end, whatever the others do |
| `CatProtocol.RaisedIffFailed` | cat-sentinel/app/cats/repository.py:31-48 | another error is raised exactly if one of its own calls fails |
| `CatProtocol.AloneReturns` | cat-sentinel/app/cats/repository.py:35-48 | alone, a writer whose row can be inserted inserts it and returns its drawn id |
| `CatProtocol.AloneFinds` | cat-sentinel/app/cats/repository.py:32-34 | alone, one whose key has a row returns that in one call |
| `CatProtocol.ReraiseNeedsCollision` | cat-sentinel/app/cats/repository.py:43-46 | the error is raised again only if the drawn id is a row's already |
| `CatProtocol.ReselectOutcome` | cat-sentinel/app/cats/repository.py:39-46 | the re-select raises iff the key has no row, which needs the drawn id to be in use; otherwise it returns the winner |
| `CatProtocol.CollisionReraises` | cat-sentinel/app/cats/repository.py:39-46 | from any start, a writer that collides is taken to the re-raise by its own steps, after the rival's if there is one |
| `CatProtocol.ReraiseIffCollision` | cat-sentinel/app/cats/repository.py:31-48 | over all interleavings and failures: a writer can end in the re-raise exactly if, at the start, its key has no row and its drawn id is in the table or also drawn for another key without a row |
| `CatProtocol.FreshDrawsNeverReraise` | cat-sentinel/app/cats/repository.py:39-46 | with distinct draws that are not in the table no writer ever does |
| `Ptz.PTZController.MoveTowards` | camera/app/ptz/service.py:48-63 | commands the rounded delta, if any, and takes the target as estimate unless the motor call raises |
| `Ptz.MoveIsMove` | camera/app/ptz/service.py:48-63 | the motor goes to within half a unit of delta times units per degree on each axis; nothing is sent, and nothing can fail, iff both are at most half a unit; the target becomes the estimate unless the command raises |
| `Ptz.PTZController.Calibrate` | camera/app/ptz/service.py:77-85 | motor home, then estimate zero; the latter only if the former works |
| `Ptz.RoundIsNearest` | camera/app/ptz/service.py:57-58 | rounding is to the nearest integer, ties to even |
| `Ptz.DriftBound` | camera/app/ptz/service.py:54-85 | in every run estimate and motor differ by the motion lost and at most half a unit per move since home |
| `Ptz.SerialDriftBound` | camera/app/ptz/service.py:54-63 | after an uninterrupted calibration n moves leave at most n/2 units of drift, also if motor calls that move nothing raise |
| `Ptz.CreepingAttainsTheBound` | camera/app/ptz/service.py:57-62 | for each n the bound is attained, with the motor never commanded |
| `Ptz.InterruptedCalibration` | camera/app/ptz/service.py:81-85 | with one move in between, each axis is off by the units of that move, and right iff they were none |
| `Ptz.InterruptedLedger` | camera/app/ptz/service.py:81-85 | such a move counts as lost with what it was for before rounding |
| `Ptz.CalibrationMissesBy` | camera/app/ptz/service.py:48-85 | whatever comes in between, other calibrations included, each axis is off by just the sum of the units sent since the motor last went home; estimate and motor agree iff both sums are zero |
| `Ptz.OffsetPersists` | camera/app/ptz/service.py:48-85 | n moves later that offset is still there, to within n/2 units |
| `Ptz.CalibrationOffByThree` | camera/app/ptz/service.py:81-85 | a calibration that leaves the estimate three units off |
| `LatestPerCat.ListActiveTrackers` | hub/app/trackers/service.py:63-89 | strictly ascending by id, one entry per cat detected, with box and time of its first latest detection, an age that adds to that time to now, and the name of the last row with that id, none iff there is none |
| `LatestPerCat.ListIsUnique` | hub/app/trackers/service.py:73-89 | only one list is so, however dictionaries are walked |
| `LatestPerCat.OrderIrrelevantIff` | hub/app/trackers/service.py:64-69 | every permutation of the detections gives the same list exactly if the detections of each cat at its latest timestamp say the same |
| `LatestPerCat.OrderOfDetectionsIrrelevant` | hub/app/trackers/service.py:64-69 | in particular with distinct timestamps per cat |
| `LatestPerCat.TiesGoToTheFirst` | hub/app/trackers/service.py:68 | with two different detections at the latest time the first to come is listed |

## Left out

- Distances are an arbitrary function of two points and coordinates are reals: floating-point rounding in distances and in polygon intersections is not modelled.
- Pipeline.DetectionPipeline.ProcessFrame: takes the tracks and zones of the frame and the id each get-or-create returned as inputs; the tracker and the identity table have their own models.
- Pipeline.DetectionPipeline.ProcessFrame: detecting, opening the session and reading the zones are one step that works or raises, as are closing it, drawing and encoding, since nothing is written between.
- Ptz.PTZController.Calibrate: the lock is not an object; calls on other threads appear as events between the two halves of a calibration.
- BroadcasterRuns.DeliveredInOrder: assumes one publisher, as the broadcaster is used; waiting for the lock is modelled although no task ever waits while holding it.
- Multipart.WriteCameraStream: the running flag and the polling interval are the length of the list of polls.
- Multipart.WriteAnnotatedStream: the endless loop is modelled by the frames it has taken so far; cancellation is not modelled.
- CatProtocol.Agreement: rows are never deleted, as no code deletes them.
- CatProtocol.ReraiseIffCollision: the id a writer would make up is fixed at the start, so that collisions can be stated there; when it is drawn makes no difference.
- LatestPerCat.ListActiveTrackers: parsing of timestamps and the upstream requests, with their errors, are not part of this model; timestamps are instants.
- PipelineRuns.RunsAreSound: the ALERT activity carries its zone in the journal so that it can be counted per zone; the stored activity names only the cat.
- Alert labels, activity messages and camera ids: carried through unchanged by the source, they would add fields but no property.
- Nudging: only its effect on the motor is modelled, as unknown units.
- Detector inference, drawing, JPEG coding, HTTP and database drivers: foreign code, whose calls work or raise.
- Routing, schemas, settings, logging, recording, event log, webhook fan-out, zone and cat editing, and the frontend: plumbing without an algorithm.
