# Verified model of the AS-DT1 driver

This project models the AS-DT1 ROS 2 driver in Dafny and proves properties of the model: the point cloud combiner node
with its two concurrent callbacks, the two frame decoders, the device protocol over the serial line, and the serial byte
layer below it. `dafny verify dfyconfig.toml` checks everything.

## How the model is laid out

* **Combiner.** `PointCloud` (message, field scan), `CloudTransform` (the byte loop that moves one cloud in place),
  `CloudMerge` (concatenation), `Vectors` (matrices and vectors over the reals), `Combiner` (class
  `PointCloudCombiner`, one method per function of the node), `CombinerFacts` (what published messages mean),
  `CombinerRuns` (the two callbacks as an interleaving state machine: one step per arrival, per access to the transform
  cache, per TF answer), `CombinerTheorems` (what holds on every interleaving) and `CombinerArrivals` (which arrivals
  publish, over whole runs). A rigid transform is an arbitrary
  function from twelve bytes to twelve bytes, so no property of floating-point numbers is assumed. A TF lookup is an
  oracle that answers or fails.
* **Driver node.** `DriverNode` (field table, packed records, and how the combiner reads them back), `Fleet` (several
  drivers feeding one combiner).
* **Decoders.** `Modes`, `SensorRings`, `CdcDecoder`, `HistDecoder`. Coordinates are integers in quarter millimetres; both
  decoders divide them by 4000, and the test `z_f > 0.2f` is `z > 800` on them. Times are integer nanoseconds.
* **Device protocol.** `ImuTimeline` (IMU records and the timeline kept across frames), `DeviceClock` (64-bit clock
  offset), `DeviceLink` (`read_line_until`, `read_to_prompt`, the skip loop, `read_imu`, `read_timestamp`), `CdcEncoding`
  (the frames an encoder writes), `CdcDelivery` (what the callbacks receive), `CdcDevice` (one frame, the main loop, and
  the skip loop before it), `HistSerial` (one block, and the main loop), `V4l2Capture` (buffer ownership and the capture
  loop), `Negotiation` / `NegotiationRuns` (the device and what its commands make of it, and the device thread as a step
  machine, with `start()` and `stop()` from other threads at any moment) and `DeviceThread` (the thread as it is written,
  proved to be a run of that machine).
* **Serial layer.** `SerialLine` (`readline`, `readlines`), `SerialImpl` (timed `read` and `write`), `Timer`.

`Words` holds bytes and the fixed-width integers; wrap-around and truncation are written out.

The stream behind a serial port is a finite byte sequence together with two arbitrary functions: how many reads time out
before each byte arrives, and how many bytes the read that gets it gets at once. Behind the last byte every read throws.
`_running` is a number of loads that still read true (`stopIn`); a claim "while `stopIn > 0` afterwards" is a claim about
executions in which no load has read false. In the step machine of the device thread a step may also find the device
silent; a thread that waits for it then stays where it is, for ever if the device stays silent for ever.

Where the code and the manual disagree, the model follows the code: the published cloud carries the newest stamp of the
included clouds (`src/asdt1_driver/src/point_cloud_combiner_node.cpp:386-389`), not the first camera's
(`doc/user_manual.md:325`).

## What turned out not to hold

* Ring numbers: the rings of input `i` stay inside the range reserved for it exactly when the range ends at or below
  65536 (`CombinerFacts.RingsStayInRange`). Where every ring number below an input's largest occurs in it, rings of
  different inputs collide exactly when the final ring offset exceeds 65536 (`CombinerFacts.RingsCollideExactlyWhen`);
  inputs with gaps in their ring numbers may escape a collision beyond it. For sensors that see something on all their 24
  rings that is more than 2730 sensors (`Fleet.FullFleetCollidesExactlyWhen`); `Fleet.OneSensorTooMany` gives 2731
  messages that collide.
* A call of `readlines` that returns loses the bytes it has read exactly when the buffer fills up while it is shorter
  than the end-of-line string: the size check stands behind the `continue`. `SerialLine.LostByte` is such a call. A call
  that throws loses all it has read; it throws exactly when the port is unplugged before the buffer is full, with no
  timeout on the way (`SerialLine.Serial.ReadLines`). `SerialLine.LostLine` loses a whole line in that way.
* "Every cloud carries its own start time" fails for the first cloud of a run with the CDC device: `run()` skips frames
  up to their `END` line, so the closing time of the last skipped frame is taken for the start time of the next one
  (`CdcDevice.DeviceCdc.SkippedParts`). The first stamp is right exactly when the skipped frame ended at the very time
  the next one started (`CdcDelivery.FirstStampExactlyWhen`); `CdcDelivery.FirstStampIsEarly` is a run in which it is 3 ms
  early. All later clouds carry their own start times (`CdcDevice.DeviceCdc.SkipAndStream`).
* The sign rule of the histogram decoder is two's complement exactly when the two upper bits of the 24-bit field are clear
  (`HistDecoder.SignedFieldIsTwosComplement`).
* A histogram point carries the time of its own bank exactly when no earlier point of the bank took its high peak, or it
  takes its own high peak, or the banks' times agree (`HistDecoder.TimeIsOwnBanks`). `HistDecoder.TimeOfAnotherBank`
  builds a frame in which it does not.
* "Every run of the device thread ends with a closing notice" fails in two ways. When `stop()` comes while the device
  reboots, the closing commands are sent to a closed port outside the `try` block (`NegotiationRuns.StopDuringReboot` is
  such a run). And `read_to_prompt` never looks at `_running`: a device that is present and silent keeps a stopped thread
  in the first closing command for ever (`NegotiationRuns.SilenceKeepsClosing`). `NegotiationRuns.EndsExactlyWhen` and
  `NegotiationRuns.CrashesExactlyWhen` say exactly when a thread that has left its `try` block ends with the notice, and
  when an exception ends it; in every other case it waits for ever (`NegotiationRuns.WaitsOtherwise`).
* At most three passes over the device, and settings in force at the announcement, need a device that answers
  truthfully in time: one whose answers always come too late is set and rebooted over and over, however it is set
  (`NegotiationRuns.LateDeviceIsRebooted`). The order of the callbacks needs no such device
  (`NegotiationRuns.CallbacksInOrder`).
* "The trigger output is disabled at the next startup" fails: both commands for the trigger output begin with `fl`, which
  stores a setting, so the second (`fltrgout riselast`) overwrites the first (`fltrgout disable`) among the startup
  defaults (`NegotiationRuns.StreamingIsSetUp`), and no command sets the output that is in force
  (`Negotiation.SetupKeeps`).
* `read_imu` gives back a list of records exactly when none of them begins with the bytes `END`
  (`DeviceLink.ParseRecordsInvertsExactlyWhen`); otherwise the first such record ends the list
  (`DeviceLink.ParseRecordsStopsAtFirst`).
* The V4L2 loop does not look at the answer when it queues an error buffer again; all buffers are back in the queue
  exactly when every such answer was a success too (`V4l2Capture.AllBuffersBack`).

## Model

| member | source | states |
|---|---|---|
| PointCloud.FindOffsets | src/asdt1_driver/src/point_cloud_combiner_node.cpp:197-220 | the scan yields, per field, the offset of the last matching entry, and nothing when x, y or z is missing or negative as a C++ int |
| PointCloud.LastOffsetIsTheLastMatch | src/asdt1_driver/src/point_cloud_combiner_node.cpp:205-216 | independent of the scan: the offset kept is that of the highest matching index, -1 without a match |
| PointCloud.HasXyzExactlyWhen | src/asdt1_driver/src/point_cloud_combiner_node.cpp:205-219 | a cloud is usable if and only if x, y and z each have a float32 field whose last offset is below 2^31 |
| PointCloud.MapPointsAt | src/asdt1_driver/src/point_cloud_combiner_node.cpp:287-315 | the specification of the loop is the pointwise image: each of the first n points is mapped once from its original bytes, all later ones are untouched |
| PointCloud.MapPointsBeyond | src/asdt1_driver/src/point_cloud_combiner_node.cpp:287-315 | every byte behind the announced points keeps its value |
| CloudTransform.TransformPoints | src/asdt1_driver/src/point_cloud_combiner_node.cpp:284-315 | the in-place byte loop equals the pure map over the original points, and max_ring is the largest ring it saw |
| CloudTransform.TransformPoint | src/asdt1_driver/src/point_cloud_combiner_node.cpp:289-314 | one turn rewrites exactly the bytes of one point, also when fields overlap |
| CloudTransform.MoveRecordFields | src/asdt1_driver/src/point_cloud_combiner_node.cpp:295-313 | with disjoint fields a moved point has the transformed coordinates and the original ring plus the offset modulo 2^16 |
| CloudTransform.MoveRecordElsewhere | src/asdt1_driver/src/point_cloud_combiner_node.cpp:295-313 | every byte of a point outside x, y, z and ring is unchanged, even when those fields overlap |
| CloudTransform.TransformCloud | src/asdt1_driver/src/point_cloud_combiner_node.cpp:265-320 | None without x/y/z fields; else the moved cloud in the target frame, and the ring offset grows by the largest ring plus one |
| CloudMerge.CountPoints | src/asdt1_driver/src/point_cloud_combiner_node.cpp:346-364 | the counting loop adds up width * height over exactly the clouds with the schema of the first |
| CloudMerge.BuildCombinedCloud | src/asdt1_driver/src/point_cloud_combiner_node.cpp:343-393 | both loops together build the specified message, or none when there are no points or no bytes |
| CloudMerge.MatchingCounts | src/asdt1_driver/src/point_cloud_combiner_node.cpp:353-361 | the included clouds are, with multiplicity, exactly those with the first cloud's schema |
| CloudMerge.CombinedStamp | src/asdt1_driver/src/point_cloud_combiner_node.cpp:386-389 | the stamp is an upper bound of the included stamps and one of them |
| CloudMerge.JoinedPoint | src/asdt1_driver/src/point_cloud_combiner_node.cpp:380-384 | point j of included cloud i is the output point at the prefix sum of the earlier clouds plus j |
| CloudMerge.JoinedSource | src/asdt1_driver/src/point_cloud_combiner_node.cpp:380-384 | every output point has such a source |
| CloudMerge.CombinedConserves | src/asdt1_driver/src/point_cloud_combiner_node.cpp:366-392 | for tight inputs below 2^32 points the message announces exactly the included points, carries width * point_step bytes, and keeps the byte order of the first |
| Combiner.CheckTolerance | src/asdt1_driver/src/point_cloud_combiner_node.cpp:96-107 | comparing each stamp with the newest decides whether all stamps lie pairwise within the tolerance |
| Combiner.PointCloudCombiner.constructor | src/asdt1_driver/src/point_cloud_combiner_node.cpp:21-72 | all slots and all cached transforms are empty; without a cloud topic there is no slot at all, not even for IMUs |
| Combiner.PointCloudCombiner.OnPointCloud | src/asdt1_driver/src/point_cloud_combiner_node.cpp:74-79 | only the arriving topic's slot changes, then the cache and the publications change as the callback specification says |
| Combiner.PointCloudCombiner.TryPublishCombined | src/asdt1_driver/src/point_cloud_combiner_node.cpp:88-123 | the new cache and the at most one publication, for every outcome of the checks and of TF |
| Combiner.PointCloudCombiner.TransformAll | src/asdt1_driver/src/point_cloud_combiner_node.cpp:109-117 | inputs are transformed in order with a running ring offset until the first that is not ready; transforms found on the way stay cached |
| Combiner.PointCloudCombiner.TransformToTargetFrame | src/asdt1_driver/src/point_cloud_combiner_node.cpp:265-320 | a TF answer is cached even when the cloud then lacks x/y/z fields |
| Combiner.PointCloudCombiner.GetTransform | src/asdt1_driver/src/point_cloud_combiner_node.cpp:222-263 | a cached transform wins over TF, a TF answer is stored, a failure stores nothing |
| Combiner.PointCloudCombiner.OnImu | src/asdt1_driver/src/point_cloud_combiner_node.cpp:81-86 | fuses exactly when all IMU slots are filled, in tolerance, and every IMU index is cached; the cache is not written |
| Combiner.PointCloudCombiner.TryPublishCombinedImu | src/asdt1_driver/src/point_cloud_combiner_node.cpp:125-195 | the fused message: rotated means, covariances divided or marked unknown, orientation marked unknown, the first IMU's stamp |
| Combiner.PointCloudCombiner.TransformImuVector | src/asdt1_driver/src/point_cloud_combiner_node.cpp:322-341 | rotates by the cached transform, fails without one |
| Combiner.OutcomeDetermined | src/asdt1_driver/src/point_cloud_combiner_node.cpp:88-123 | what is published depends on the inputs and on the cache that the callback leaves, and on nothing else |
| CombinerFacts.MovedPoint | src/asdt1_driver/src/point_cloud_combiner_node.cpp:109-117 | each transformed input holds its points moved by its own transform and its own ring offset |
| CombinerFacts.MovedRing | src/asdt1_driver/src/point_cloud_combiner_node.cpp:307-314 | the ring bytes of a transformed point are the original ring plus the input's offset |
| CombinerFacts.RingsStayInRange | src/asdt1_driver/src/point_cloud_combiner_node.cpp:111-117 | all output rings of an input lie in its reserved range if and only if that range ends at or below 65536 |
| CombinerFacts.RingsIdentifySource | src/asdt1_driver/src/point_cloud_combiner_node.cpp:284-317 | if the final ring offset is at most 65536, an output ring determines the source cloud and the original ring |
| CombinerFacts.RingsCollideExactlyWhen | src/asdt1_driver/src/point_cloud_combiner_node.cpp:284-317 | where every ring number occurs, points of two different inputs share an output ring if and only if the final ring offset exceeds 65536 |
| CombinerFacts.PublishedPoint | src/asdt1_driver/src/point_cloud_combiner_node.cpp:88-123 | end to end: every point of every included input is published, moved and renumbered, at its prefix-sum position |
| CombinerFacts.PublishedSource | src/asdt1_driver/src/point_cloud_combiner_node.cpp:343-393 | end to end, the converse: every point that a published cloud announces is point j of an included input i, at its prefix-sum position |
| CombinerFacts.PublishedHeader | src/asdt1_driver/src/point_cloud_combiner_node.cpp:366-376 | frame, fields, byte order, point_step, and width and row_step modulo 2^32 of a published cloud, for inputs of any size |
| CombinerFacts.PublishedSize | src/asdt1_driver/src/point_cloud_combiner_node.cpp:366-392 | width, height, row_step, byte order, data length, fields and frame of a published cloud |
| CombinerFacts.PublishedDense | src/asdt1_driver/src/point_cloud_combiner_node.cpp:376-385 | is_dense of a published cloud is the conjunction over the inputs with the first one's schema |
| CombinerFacts.PublishedStamp | src/asdt1_driver/src/point_cloud_combiner_node.cpp:386-389 | the published stamp is the maximum over the included inputs |
| CombinerFacts.PublishesExactlyWhen | src/asdt1_driver/src/point_cloud_combiner_node.cpp:88-123 | an arrival publishes if and only if all slots are filled, in tolerance, transformable, with x/y/z fields, and an included input has a point |
| CombinerFacts.AgreeingImusFuse | src/asdt1_driver/src/point_cloud_combiner_node.cpp:146-174 | IMUs whose rotated vectors agree fuse to exactly that vector, angular velocity and acceleration each for itself, with the first stamp and the target frame |
| CombinerFacts.FusedIsMean | src/asdt1_driver/src/point_cloud_combiner_node.cpp:146-158 | for any IMUs: n times each component of the fused vectors is the sum over the IMUs of the matrix row times the vector |
| CombinerFacts.FusedCovariances | src/asdt1_driver/src/point_cloud_combiner_node.cpp:160-192 | both covariances are the first IMU's divided by n, or marked unknown with the other entries kept; the orientation is the first IMU's, marked unknown |
| CombinerFacts.QuarterTurn | src/asdt1_driver/src/point_cloud_combiner_node.cpp:322-341 | one IMU turned by a quarter about z: what points along x is published along y |
| CombinerFacts.CloudsDueWithin25Ms | src/asdt1_driver/src/point_cloud_combiner_node.cpp:90-107 | clouds are in tolerance if and only if no two stamps are more than 25 ms apart |
| CombinerFacts.ImusDueWithin10Ms | src/asdt1_driver/src/point_cloud_combiner_node.cpp:129-144 | IMU samples are in tolerance if and only if no two stamps are more than 10 ms apart |
| CombinerFacts.SpanWithoutRings | src/asdt1_driver/src/point_cloud_combiner_node.cpp:284-317 | without a ring field a cloud reserves no ring number, without points one |
| Vectors.RotatesUnits | src/asdt1_driver/src/point_cloud_combiner_node.cpp:339 | the rotation takes the unit vectors to the columns of the matrix |
| Vectors.RotatesLinearly | src/asdt1_driver/src/point_cloud_combiner_node.cpp:339 | it is additive and homogeneous |
| Vectors.RotatesRows | src/asdt1_driver/src/point_cloud_combiner_node.cpp:339 | with orthonormal rows it takes row i to the i-th unit vector |
| Vectors.RotatesKeepingLength | src/asdt1_driver/src/point_cloud_combiner_node.cpp:339 | with orthonormal rows it keeps the length of every vector |
| CombinerRuns.StepGrowsCache | src/asdt1_driver/src/point_cloud_combiner_node.cpp:222-263 | no step of any thread overwrites a filled transform slot |
| CombinerRuns.StepConsistent | src/asdt1_driver/src/point_cloud_combiner_node.cpp:74-195 | every step of either callback keeps the invariant, although the cache lock is released between look-up and store |
| CombinerTheorems.CloudCallbackIsAtomic | src/asdt1_driver/src/point_cloud_combiner_node.cpp:88-123 | whatever the IMU thread does in between, a cloud callback ends with the cache and the publication of the uninterrupted callback |
| CombinerTheorems.ImuCallbackIsAtomic | src/asdt1_driver/src/point_cloud_combiner_node.cpp:125-195 | an IMU callback fuses exactly when every index is cached at its last read, and both vectors then used those very transforms |
| CombinerTheorems.CacheIsWriteOnce | src/asdt1_driver/src/point_cloud_combiner_node.cpp:222-263 | on every run each transform slot is written at most once and never changes |
| CombinerTheorems.RunLogs | src/asdt1_driver/src/point_cloud_combiner_node.cpp:74-195 | on every run each message belongs to exactly one arrival, is made of the latest message of every topic, in tolerance, and uses one transform per input for good |
| CombinerTheorems.StampsNeverDecrease | src/asdt1_driver/src/point_cloud_combiner_node.cpp:368-390 | if each topic's stamps never decrease and its schema stays, published stamps never decrease |
| CombinerArrivals.ArrivalsPublishExactlyWhen | src/asdt1_driver/src/point_cloud_combiner_node.cpp:74-123 | on every run each cloud arrival is handled once, with the latest cloud of every topic, and publishes if and only if all slots are filled, in tolerance, transformable, with x/y/z fields, and an included cloud has a point |
| CombinerArrivals.ImuArrivalsFuseExactlyWhen | src/asdt1_driver/src/point_cloud_combiner_node.cpp:81-195 | on every run each IMU arrival is handled once, with the latest sample of every topic, and fuses if and only if all slots are filled, in tolerance, and every index is cached by its last access |
| DriverNode.FieldTable | src/asdt1_driver/src/asdt1_driver_node.cpp:151-191 | the table built with a running offset is read back by the combiner's scan as 0, 4, 8, 12, 16, 20 |
| DriverNode.StoreRecords | src/asdt1_driver/src/asdt1_driver_node.cpp:285-295 | the loop with an advancing position fills the buffer with the concatenated 22-byte records |
| DriverNode.OnPointCloud | src/asdt1_driver/src/asdt1_driver_node.cpp:251-300 | the message for either kind of point list |
| DriverNode.DriverCloudFits | src/asdt1_driver/src/asdt1_driver_node.cpp:251-300 | every driver message is well formed, tight, little-endian, and has disjoint fields, as the combiner needs; its sizes and header |
| DriverNode.DriverRecordReadBack | src/asdt1_driver/src/point_cloud_combiner_node.cpp:197-220 | at the offsets that the combiner derives from the driver's own table each record gives back all six fields |
| DriverNode.PlainRecordReadBack | src/asdt1_driver/src/asdt1_driver_node.cpp:269-276 | for points without intensity, time and ring each record gives back the three coordinates, and no other field is announced |
| Fleet.FleetRingsIdentifySensor | src/asdt1_driver/src/point_cloud_combiner_node.cpp:284-317 | with at most 2730 sensors of 24 rings, no output rings of different sensors collide |
| Fleet.FullFleetCollidesExactlyWhen | src/asdt1_driver/src/point_cloud_combiner_node.cpp:284-317 | where every sensor sees something on all its 24 rings, all ring numbers occur, the final offset is 24 per sensor, and output rings of different sensors collide if and only if there are more than 2730 |
| Fleet.OneSensorTooMany | src/asdt1_driver/src/point_cloud_combiner_node.cpp:284-317 | 2731 concrete driver messages whose rings collide |
| Fleet.FleetPointArrives | src/asdt1_driver/src/point_cloud_combiner_node.cpp:88-123 | from sensor to published cloud: each driver point arrives transformed, with intensity and time untouched and the ring shifted by its sensor's offset, in a message that announces those fields at those offsets, little-endian |
| Modes.TableIsConsistent | src/asdt1_driver/src/device/dt1_modes.cpp:12-16 | in every mode the banks fill the frame exactly and 48 points per bank make up the cloud |
| SensorRings.BankToRing | src/asdt1_driver/src/device/dt1_device_hist.cpp:34-45 | the table look-ups stay inside the tables and give a row of the mode |
| CdcDecoder.OffsetsAreSlots | src/asdt1_driver/src/device/dt1_device_cdc.cpp:15-47 | both offset maps are bijections onto the 15-byte slots, with an explicit inverse |
| CdcDecoder.RowsAgree | src/asdt1_driver/src/device/dt1_device_cdc.cpp:39-47 | CDC point 48 * bank + mp is taken from the row that bank_to_ring gives to (bank, mp) |
| CdcDecoder.ExtractFirstPeak | src/asdt1_driver/src/device/dt1_device_cdc.cpp:18-37 | throws exactly when fewer than 15 bytes are left, else decodes the three 20-bit fields of the slot |
| CdcDecoder.DecodedPacked | src/asdt1_driver/src/device/dt1_device_cdc.cpp:22-36 | decoding inverts packing for every 20-bit two's-complement peak, whatever follows it in the slot |
| CdcDecoder.UnpackPointCloud | src/asdt1_driver/src/device/dt1_device_cdc.cpp:101-106 | on a buffer of the mode's size the range check never throws and the loop decodes the whole cloud |
| CdcDecoder.CloudPermutesSlots | src/asdt1_driver/src/device/dt1_device_cdc.cpp:101-106 | the cloud is a permutation of the decoded slots |
| CdcDecoder.PeaksRecovered | src/asdt1_driver/src/device/dt1_device_cdc.cpp:15-37 | every peak packed into a payload comes back at the cloud position of its slot |
| HistDecoder.LayoutIsPacked | src/asdt1_driver/src/device/include/hist_frame.h:11-63 | the offsets used are the sums of the packed member sizes, and a bank has 33600 bytes |
| HistDecoder.BanksInside | src/asdt1_driver/src/device/dt1_device_hist.cpp:172-176 | a frame of the size that the capture loop checks holds every bank that is read, also the high banks of the 20m mode |
| HistDecoder.BankTimeAcrossWrap | src/asdt1_driver/src/device/dt1_device_hist.cpp:195-210 | the tick difference stays right when the 32-bit counter wraps between two banks |
| HistDecoder.SignedFieldIsTwosComplement | src/asdt1_driver/src/device/dt1_device_hist.cpp:244-247 | the sign rule is 22-bit two's complement if and only if the field is below 2^22 |
| HistDecoder.PackedPeakDecoded | src/asdt1_driver/src/device/dt1_device_hist.cpp:221-253 | every peak packed at its place in the frame comes back as (-y, x, z) with height and error, for all 22-bit coordinates |
| HistDecoder.PackedTicksDecoded | src/asdt1_driver/src/device/dt1_device_hist.cpp:207-208 | every tick counter packed into every second byte of the embedded data comes back |
| HistDecoder.DeviceHist.UnpackBank | src/asdt1_driver/src/device/dt1_device_hist.cpp:210-261 | the inner loop extends the cloud by the filtered points of one bank, with the sticky time of the code, and writes stay inside the cloud |
| HistDecoder.DeviceHist.UnpackHistFrame | src/asdt1_driver/src/device/dt1_device_hist.cpp:193-269 | delivers exactly the filter-map of the frame, and only while running with a clock offset |
| HistDecoder.AcceptedIsKept | src/asdt1_driver/src/device/dt1_device_hist.cpp:204-254 | every point with a valid low peak and a chosen peak beyond 20 cm is in the cloud, right behind the accepted points before it |
| HistDecoder.KeptIsAccepted | src/asdt1_driver/src/device/dt1_device_hist.cpp:204-254 | conversely every cloud point is such a point of the frame, at that position |
| HistDecoder.CloudBounds | src/asdt1_driver/src/device/dt1_device_hist.cpp:201-254 | every cloud point lies beyond 20 cm and on a row of the mode, and there are at most nbr_points_x * nbr_points_y of them |
| HistDecoder.TimeIsOwnBanks | src/asdt1_driver/src/device/dt1_device_hist.cpp:210-242 | exactly when a point carries the time of the bank it was decoded from |
| HistDecoder.TimeOfAnotherBank | src/asdt1_driver/src/device/dt1_device_hist.cpp:210-242 | a concrete 20m frame in which a point decoded from its low peak carries the high bank's time |
| HistDecoder.HighErrorsAreIgnored | src/asdt1_driver/src/device/dt1_device_hist.cpp:219-243 | the error fields of high peaks have no influence on the cloud |
| HistDecoder.LowOrHigh | src/asdt1_driver/src/device/dt1_device_hist.cpp:217-255 | 20m mode, for every pair of packed measurements: the low one becomes the next point when z <= 2000, or when z != 65536 and the high z <= 2000, else the high one with its bank's time; in either case exactly when its z exceeds 800 |
| HistDecoder.OnlyMeasured | src/asdt1_driver/src/device/dt1_device_hist.cpp:217-255 | the other modes: every packed measurement becomes the next point, with its bank's time, exactly when its z exceeds 800 |
| HistDecoder.InvalidIsDropped | src/asdt1_driver/src/device/dt1_device_hist.cpp:219-262 | a measurement with an error gives no point in any mode |
| HistDecoder.StampIsCpuTime | src/asdt1_driver/src/device/dt1_device_hist.cpp:198-268 | the packed CPU time plus the clock offset is the stamp; nothing is delivered when stopped or without a clock offset |
| V4l2Capture.RunV4l2 | src/asdt1_driver/src/device/dt1_device_hist.cpp:135-191 | for every sequence of events: exactly the full, error-free frames are delivered, once and in order, until the first breaking event; only a dequeued buffer is read |
| V4l2Capture.Turn | src/asdt1_driver/src/device/dt1_device_hist.cpp:137-187 | one turn of the loop for each kind of event, and the buffers queued after it |
| V4l2Capture.VideoQueue.QueueAll | src/asdt1_driver/src/device/dt1_device_hist.cpp:343-355 | streaming starts only with all buffers queued |
| V4l2Capture.AllBuffersBack | src/asdt1_driver/src/device/dt1_device_hist.cpp:158-187 | all buffers are queued again if and only if every QBUF succeeded, including the unchecked one |
| V4l2Capture.DeliveriesInOrder | src/asdt1_driver/src/device/dt1_device_hist.cpp:135-188 | frames are neither reordered nor merged across any split of the event sequence |
| V4l2Capture.WhatIsDecoded | src/asdt1_driver/src/device/dt1_device_hist.cpp:165-181 | a captured buffer is decoded if and only if it has no error and exactly the bytes of the mode's banks |
| V4l2Capture.WhatBreaks | src/asdt1_driver/src/device/dt1_device_hist.cpp:144-187 | which events end the loop: failures of select and DQBUF, and of QBUF except for an error buffer |
| V4l2Capture.SeenUpToBreak | src/asdt1_driver/src/device/dt1_device_hist.cpp:135-188 | the loop sees all events up to and including the first that ends it |
| ImuTimeline.RecordRoundTrip | src/asdt1_driver/src/device/dt1_device.cpp:515-541 | every sensor reading packed into a record is recovered, with x and y exchanged |
| ImuTimeline.ResetSetsTime | src/asdt1_driver/src/device/dt1_device.cpp:527-531 | a packed reset record sets the device time to the frame time plus 1000 ns per microsecond it says |
| ImuTimeline.RecordAdvances | src/asdt1_driver/src/device/dt1_device.cpp:532 | any other packed record moves a set device time on by 10 ms |
| ImuTimeline.KeptIsPrefix | src/asdt1_driver/src/device/dt1_device.cpp:525-531 | per frame the honoured records are the longest prefix with at most one reset |
| ImuTimeline.Unpacker.UnpackImuData | src/asdt1_driver/src/device/dt1_device.cpp:506-546 | the loop yields the specified samples and leaves the specified device time for the next frame |
| ImuTimeline.RunTimeIsFlat | src/asdt1_driver/src/device/dt1_device.cpp:506-546 | frame boundaries do not show in the timeline |
| ImuTimeline.TimeInClosedForm | src/asdt1_driver/src/device/dt1_device.cpp:527-532 | device time is the last reset's time plus ten milliseconds for each record since, and none before the first reset |
| ImuTimeline.SamplesEveryTenMs | src/asdt1_driver/src/device/dt1_device.cpp:532-534 | each later non-reset sample is exactly 10,000,000 ns after its predecessor, also across frames |
| ImuTimeline.RunSamplesAreTimeline | src/asdt1_driver/src/device/dt1_device.cpp:506-546 | over any run since start() the emitted samples are exactly the timeline from the first reset on |
| DeviceClock.ClocksCancel | src/asdt1_driver/src/device/dt1_device_cdc.cpp:90-99 | device time plus offset is receive time minus age modulo 2^64, whatever the device's epoch |
| DeviceClock.StampIsReceiveTimeMinusAge | src/asdt1_driver/src/device/dt1_device_cdc.cpp:90-111 | the published stamp is receive_ts - (end_ts - frame_ts), and not later than receive_ts exactly when frame_ts <= end_ts |
| HistSerial.FrameTsOnHost | src/asdt1_driver/src/device/dt1_device_hist.cpp:101-104 | on the host clock the frame time is the receive time minus the exposure, which is 65 ms in the modes 30m15f and 40m and 32 ms else |
| HistSerial.BlockIsOneCall | src/asdt1_driver/src/device/dt1_device_hist.cpp:106-108 | a block gives at most one callback, none exactly when the device time is not positive behind any of its records |
| HistSerial.SerialSide.ProcessSerialData | src/asdt1_driver/src/device/dt1_device_hist.cpp:86-109 | consumes exactly one IMU block and time stamp, however chunked, and delivers the samples of the timeline |
| HistSerial.SerialSide.StreamBlocks | src/asdt1_driver/src/device/dt1_device.cpp:257-260 | since start(), over any list of IMU blocks and time stamps and any chunking, the delivered samples are those of RunSamples; after stop() a prefix |
| DeviceLink.Link.ReadLineUntil | src/asdt1_driver/src/device/dt1_device.cpp:432-443 | if no timeout falls inside a line, it stops right behind the first line that contains the text |
| DeviceLink.Link.ReadToPrompt | src/asdt1_driver/src/device/dt1_device.cpp:445-470 | succeeds if and only if a prompt is still to come, consumes the bytes through the first one, and neither tests nor changes _running |
| DeviceLink.Link.SkipFrames | src/asdt1_driver/src/device/dt1_device.cpp:247-251 | stops right behind the n-th line with END, or throws when there are fewer |
| DeviceLink.Link.ReadExactly | src/asdt1_driver/src/device/dt1_device.cpp:481-490 | returns exactly the next n bytes for any short and empty reads |
| DeviceLink.Link.ReadRecords | src/asdt1_driver/src/device/dt1_device.cpp:478-493 | reads exactly the records before END and stops right behind it, for any chunking |
| DeviceLink.Link.ReadImu | src/asdt1_driver/src/device/dt1_device.cpp:472-494 | from the BEGIN IMU line to END: the records that are coming, and nothing behind them is consumed |
| DeviceLink.Link.ReadTimestamp | src/asdt1_driver/src/device/dt1_device.cpp:496-504 | the number of the first tm= line, which is consumed whole; blanks, a sign and overflow are read as sscanf does |
| DeviceLink.WireTexts | src/asdt1_driver/src/device/dt1_device.cpp:445-502 | the texts and signs that the reader looks for, character by character |
| DeviceLink.ParseRecordsInverts | src/asdt1_driver/src/device/dt1_device.cpp:472-494 | reading inverts writing for every list of records none of which begins with END |
| DeviceLink.ParseRecordsStopsAtFirst | src/asdt1_driver/src/device/dt1_device.cpp:478-493 | the first record that begins with END, wherever it stands, ends the list: the records before it are returned and reading stops three bytes into it |
| DeviceLink.ParseRecordsInvertsExactlyWhen | src/asdt1_driver/src/device/dt1_device.cpp:472-494 | a list of records comes back if and only if none of them begins with END |
| CdcEncoding.PartsOfFrame | src/asdt1_driver/src/device/dt1_device_cdc.cpp:90-96 | an encoded frame consists of the time line, BEGIN MP, payload, BEGIN IMU, records, END and time line at computable places |
| CdcEncoding.ReaderFinds | src/asdt1_driver/src/device/dt1_device.cpp:432-504 | the reader's line search finds each of those parts, and the written numbers are parsed back |
| CdcEncoding.ReaderParses | src/asdt1_driver/src/device/dt1_device.cpp:472-494 | the records of an encoded frame are parsed back and nothing behind END is touched |
| CdcEncoding.SkipFinds | src/asdt1_driver/src/device/dt1_device.cpp:247-251 | in an encoded frame with END nowhere else, the search for END stops behind the line that ends the records, before the closing time line |
| CdcEncoding.ReaderFindsSkipped | src/asdt1_driver/src/device/dt1_device_cdc.cpp:83-94 | from there the next time line is the closing one of the skipped frame, and the search for BEGIN MP passes over the own time line of the next frame |
| CdcEncoding.ParseDigitsInverts | src/asdt1_driver/src/device/dt1_device.cpp:501-502 | decimal parsing inverts decimal printing for every number |
| CdcEncoding.NumberIsRead | src/asdt1_driver/src/device/dt1_device.cpp:496-504 | the number of a tm= line as sscanf reads it: behind blanks and one sign, minus modulo 2^64, saturating |
| CdcEncoding.NoNumberIsZero | src/asdt1_driver/src/device/dt1_device.cpp:496-504 | a line that does not begin with tm= or has no digit there gives 0 |
| CdcDelivery.RunDelivers | src/asdt1_driver/src/device/dt1_device_cdc.cpp:90-112 | over a run since start() the IMU callbacks together receive exactly the IMU timeline of the frames, and the cloud callback one cloud per frame, in order |
| CdcDelivery.FrameInRun | src/asdt1_driver/src/device/dt1_device_cdc.cpp:109-112 | the samples of a frame come in one call right behind its cloud, if and only if it gives samples; each cloud carries the stamp of its frame |
| CdcDelivery.FirstSample | src/asdt1_driver/src/device/dt1_device_cdc.cpp:90-112 | a concrete frame with one reset record delivers its cloud and one sample with the same stamp |
| CdcDevice.DeviceCdc.constructor | src/asdt1_driver/src/device/dt1_device_cdc.cpp:60-66 | the buffers get the mode's size |
| CdcDevice.DeviceCdc.FillBuffer | src/asdt1_driver/src/device/dt1_device_cdc.cpp:73-80 | the receive buffer holds exactly the next bytes, for any chunking |
| CdcDevice.DeviceCdc.ReadSerialPointCloud | src/asdt1_driver/src/device/dt1_device_cdc.cpp:68-81 | the payload behind the BEGIN MP line is read completely and nothing more |
| CdcDevice.DeviceCdc.Deliver | src/asdt1_driver/src/device/dt1_device_cdc.cpp:95-112 | what is delivered from a full buffer: the cloud with its stamp, then the samples if there are any; and which prefix of it when the device is stopped in between |
| CdcDevice.DeviceCdc.ProcessSerialData | src/asdt1_driver/src/device/dt1_device_cdc.cpp:83-113 | consumes exactly the coming frame and delivers exactly its cloud, and its samples if there are any |
| CdcDevice.DeviceCdc.StreamFrames | src/asdt1_driver/src/device/dt1_device.cpp:257-260 | from any position at which frames are received one after the other: the calls are one cloud per frame in order and together the samples of the IMU timeline, for any chunking; after stop() a prefix of each |
| CdcDevice.DeviceCdc.EncodedFramesCome | src/asdt1_driver/src/device/dt1_device_cdc.cpp:83-113 | the concatenated frames of an encoder, with no timeout inside a line, are the stream that SkipAndStream and EncodedReceived start from |
| CdcDevice.DeviceCdc.EncodedReceived | src/asdt1_driver/src/device/dt1_device_cdc.cpp:83-113 | an encoder's frames, read from the beginning of the first, are received with their own time stamps |
| CdcDevice.DeviceCdc.SkippedParts | src/asdt1_driver/src/device/dt1_device_cdc.cpp:83-96 | behind a skipped frame the next one is received with the closing time of the skipped frame for its own start time, and all else of its own |
| CdcDevice.DeviceCdc.SkipAndStream | src/asdt1_driver/src/device/dt1_device.cpp:247-260 | from the first byte of the stream: run() skips frame_rate frames and delivers every later one in order, one cloud each and the samples of the IMU timeline, the first with the closing time of the last skipped frame, all others with their own times; nothing with fewer frames; after stop() a prefix |
| CdcDelivery.FirstStampExactlyWhen | src/asdt1_driver/src/device/dt1_device_cdc.cpp:90-111 | the first delivered cloud carries its own stamp if and only if the closing time of the skipped frame equals its start time on the device clock |
| CdcDelivery.FirstStampIsEarly | src/asdt1_driver/src/device/dt1_device_cdc.cpp:90-111 | two concrete frames, the first skipped, for which the first stamp is 3 ms early |
| Negotiation.LookupMode | src/asdt1_driver/src/device/dt1_device.cpp:378-388 | the loop finds the first mode whose text the answer contains |
| Negotiation.LookupIsTruthful | src/asdt1_driver/src/device/dt1_device.cpp:378-391 | an answer that names one mode is looked up to that mode, an unknown mode to nothing |
| Negotiation.TextsAreDistinct | src/asdt1_driver/src/device/dt1_modes.cpp:12-16 | no two modes share their text |
| Negotiation.TextsAreApart | src/asdt1_driver/src/device/dt1_modes.cpp:12-16 | no mode's text is part of another's |
| Negotiation.TextIsTruthful | src/asdt1_driver/src/device/dt1_device.cpp:378-382 | so the search by substring finds exactly the mode whose text the answer is |
| Negotiation.KnownModes | src/asdt1_driver/src/device/dt1_device.cpp:378-391 | each of the five mode names is looked up to its own place in the table |
| Negotiation.SetupStep | src/asdt1_driver/src/device/dt1_device.cpp:223-245 | each setup command, obeyed by the device, takes its output settings one step further: startup format, trigger input, period and trigger output, then format, trigger input and period in force |
| Negotiation.SetupKeeps | src/asdt1_driver/src/device/dt1_device.cpp:223-245 | no setup command touches the start mode, the mode or the trigger output in force |
| Negotiation.StepKeepsOrder | src/asdt1_driver/src/device/dt1_device.cpp:165-309 | whatever the device answers, every step of the thread, of start() and of stop() keeps the callbacks in turn, the state of the port, the commands sent and what they have made of the device |
| Negotiation.StepKeepsInv | src/asdt1_driver/src/device/dt1_device.cpp:165-309 | with a truthful device, every step also keeps the confirmed settings and the budget of passes |
| NegotiationRuns.CallbacksInOrder | src/asdt1_driver/src/device/dt1_device.cpp:165-284 | on every run, with any device: the callbacks come in turn, two connect(true) have a connect(false) between them, there are no more connect(true) than runs, and when a run has ended there were as many connect(false) as runs, the last one last |
| NegotiationRuns.NegotiationIsSafe | src/asdt1_driver/src/device/dt1_device.cpp:165-284 | on every run in which the device answers truthfully whenever it is listened to, each connect(true) comes with both settings in force and after at most three passes, one more than there were wrong settings if nothing was waiting for a reboot |
| NegotiationRuns.LateDeviceIsRebooted | src/asdt1_driver/src/device/dt1_device.cpp:286-306 | a device whose answers come too late is set and rebooted any number of times and never announced, however it is set |
| NegotiationRuns.StreamingIsSetUp | src/asdt1_driver/src/device/dt1_device.cpp:213-260 | on every run, streaming is reached only on an open port after exactly the setup commands; the device then waits for its trigger input if and only if it is a slave and else runs freely with the wanted period, in binary with IMU; its startup defaults send no frames, with trigger input disabled and trigger output on the last frame |
| NegotiationRuns.StopIfStreaming | src/asdt1_driver/src/device/dt1_device.cpp:311-323 | a device that was still streaming is told to send no frames before it is asked anything |
| NegotiationRuns.ConnectOutcome | src/asdt1_driver/src/device/dt1_device.cpp:182-186 | what an attempt to connect makes of the port: nothing, an open port that is tried again, or a connection |
| NegotiationRuns.StartOutcome | src/asdt1_driver/src/device/dt1_device.cpp:286-309 | the start mode is confirmed if and only if the answer contains it, else set |
| NegotiationRuns.ModeOutcome | src/asdt1_driver/src/device/dt1_device.cpp:341-396 | a device is accepted if and only if its version is supported and its mode is the wanted one; another known mode is set; an unsupported version or an unknown mode ends the negotiation |
| NegotiationRuns.SkipsOneSecond | src/asdt1_driver/src/device/dt1_device.cpp:247-251 | behind the last setup command exactly frame_rate frames are skipped before streaming begins |
| NegotiationRuns.ThrownExchange | src/asdt1_driver/src/device/dt1_device.cpp:398-415 | an exception in an exchange leaves the try block with the command obeyed or not |
| NegotiationRuns.SilentExchange | src/asdt1_driver/src/device/dt1_device.cpp:432-470 | where a silent device keeps the thread: for good where a prompt or frame is waited for, until stop() where an echo is |
| NegotiationRuns.Progress | src/asdt1_driver/src/device/dt1_device.cpp:165-252 | every step that does not fail brings the thread closer to streaming |
| NegotiationRuns.Converges | src/asdt1_driver/src/device/dt1_device.cpp:165-260 | from any point of a run the thread reaches streaming if the device answers truthfully, is not silent, and nothing fails |
| NegotiationRuns.StartConverges | src/asdt1_driver/src/device/dt1_device.cpp:144-260 | from start(), whatever the device is set to, streaming is reached within a bound, announced once, with the device triggered or running freely as configured |
| NegotiationRuns.PlainAnswerIsTruthful | src/asdt1_driver/src/device/dt1_device.cpp:286-396 | a device that answers with the text of its setting is truthful at every step, whatever known settings it has |
| NegotiationRuns.PlainDeviceCooperates | src/asdt1_driver/src/device/dt1_device.cpp:286-396 | such a device meets the assumption of the convergence theorems over a whole run |
| NegotiationRuns.PlainDeviceStreams | src/asdt1_driver/src/device/dt1_device.cpp:144-260 | from any known settings the negotiation with such a device ends in streaming, within the bound |
| NegotiationRuns.EndsExactlyWhen | src/asdt1_driver/src/device/dt1_device.cpp:271-283 | a thread that has left its try block ends with the notice if and only if it was not stopped, or has no port, or the port is open and the prompt comes after each of the two closing commands with no exception before |
| NegotiationRuns.CrashesExactlyWhen | src/asdt1_driver/src/device/dt1_device.cpp:271-275 | an exception leaves the thread if and only if it was stopped and the port is closed, or an exception comes while it waits for one of the two prompts |
| NegotiationRuns.WaitsOtherwise | src/asdt1_driver/src/device/dt1_device.cpp:271-275 | if neither both prompts nor an exception come, a stopped thread stays in the closing commands for ever, without the notice |
| NegotiationRuns.HowItEnds | src/asdt1_driver/src/device/dt1_device.cpp:271-283 | the notice is the last callback of a run that ends; a stopped one with a port has sent both closing commands, and the device sends no more frames |
| NegotiationRuns.SilenceKeepsClosing | src/asdt1_driver/src/device/dt1_device.cpp:445-460 | a device that is present and silent keeps a stopped thread in the first closing command for ever, without an exception and without the notice |
| NegotiationRuns.ClosedPortOnlyBetweenConnections | src/asdt1_driver/src/device/dt1_device.cpp:172-208 | the thread leaves its try block with a closed port only while it looks for the device or connects |
| NegotiationRuns.StopAfterAnnouncement | src/asdt1_driver/src/device/dt1_device.cpp:156-283 | stop() during setup, while frames are skipped or while streaming: if nothing throws and the device never falls silent for good, the thread sends the two closing commands, the device sends no more frames, and the run ends with the notice, within a bound on the turns that are not silence |
| NegotiationRuns.StopDuringReboot | src/asdt1_driver/src/device/dt1_device.cpp:201-204 | a concrete run in which stop() during the reboot ends the thread without the notice |
| NegotiationRuns.WithoutPort | src/asdt1_driver/src/device/dt1_device.cpp:271-275 | a stopped thread that looks for its device with a closed port always ends that way |
| DeviceThread.Thread.Start | src/asdt1_driver/src/device/dt1_device.cpp:144-154 | a new run begins in the step machine |
| DeviceThread.Thread.VerifyDeviceMode | src/asdt1_driver/src/device/dt1_device.cpp:286-309 | takes exactly the machine's steps: confirms the start mode, or sets it and reboots, or throws |
| DeviceThread.Thread.CheckMode | src/asdt1_driver/src/device/dt1_device.cpp:195-205 | takes exactly the machine's steps: confirms the mode, or sets it and reboots, or throws on an unsupported version or unknown mode |
| DeviceThread.Thread.Connect | src/asdt1_driver/src/device/dt1_device.cpp:182-188 | the inner loop takes exactly the machine's steps |
| DeviceThread.Thread.Negotiate | src/asdt1_driver/src/device/dt1_device.cpp:172-208 | the outer loop takes exactly the machine's steps |
| DeviceThread.Thread.SetUp | src/asdt1_driver/src/device/dt1_device.cpp:213-252 | the setup part takes exactly the machine's steps; when it is done the device waits for its trigger input if it is a slave, else runs freely with the wanted period |
| DeviceThread.Thread.Run | src/asdt1_driver/src/device/dt1_device.cpp:165-284 | every execution of run(), with any device, is a run of the step machine that ends with the notice last, or that an exception ends while it closes |
| DeviceThread.Thread.ThreadKeepsOrder | src/asdt1_driver/src/device/dt1_device.cpp:165-284 | all that CallbacksInOrder says of every run of the machine holds for the thread, with any device |
| DeviceThread.Thread.ThreadIsSafe | src/asdt1_driver/src/device/dt1_device.cpp:165-284 | what NegotiationIsSafe says holds for the thread if the device answered truthfully |
| SerialLine.Serial.ReadLine | src/asdt1_driver/dependencies/serial/src/serial.cc:175-201 | the line is the shortest prefix of the stream that ends with the end-of-line string or has the maximum size, or what came before a timeout |
| SerialLine.LineLenIsLeast | src/asdt1_driver/dependencies/serial/src/serial.cc:183-198 | that length is the least that stops the line |
| SerialLine.Serial.ReadLines | src/asdt1_driver/dependencies/serial/src/serial.cc:211-251 | a call that returns splits the bytes read without loss exactly behind the end-of-line strings, except when a buffer shorter than the end-of-line string fills up; it throws exactly when the port is unplugged before the buffer is full and before a timeout, and then all bytes that came are gone |
| SerialLine.CutsAreRepeatedLines | src/asdt1_driver/dependencies/serial/src/serial.cc:175-251 | for a one-byte end of line and ample size such a split is what repeated readline calls return |
| SerialLine.Serial.ReadLineByLine | src/asdt1_driver/dependencies/serial/src/serial.cc:175-209 | readline called until a read times out returns exactly the repeated lines of the bytes it took |
| SerialLine.SameLines | src/asdt1_driver/dependencies/serial/src/serial.cc:175-251 | on the same stream, with a one-byte end of line and ample size, readlines and repeated readline stop at the same position and return the same lines |
| SerialLine.LostByte | src/asdt1_driver/dependencies/serial/src/serial.cc:221-249 | a concrete call of readlines that returns, takes a byte and returns no line |
| SerialLine.LostLine | src/asdt1_driver/dependencies/serial/src/serial.cc:221-249 | a concrete call of readlines that throws and loses a whole line |
| SerialImpl.SerialPort.Read | src/asdt1_driver/dependencies/serial/src/impl/unix.cc:537-612 | stores exactly the next bytes of the stream, in order, and returns fewer than asked only later than constant + multiplier * size - 1 milliseconds (modulo 2^32) |
| SerialImpl.SerialPort.Write | src/asdt1_driver/dependencies/serial/src/impl/unix.cc:614-713 | passes on exactly a prefix of the data, also when it throws, and returns a proper prefix only later than constant + multiplier * size - 1 milliseconds (modulo 2^32) |
| SerialImpl.SerialPort.ReadSome | src/asdt1_driver/dependencies/serial/src/impl/unix.cc:567-594 | one attempt stores the next bytes, and nothing only when the wait has passed or was interrupted |
| Timer.MillisecondTimer.constructor | src/asdt1_driver/dependencies/serial/src/impl/unix.cc:59-70 | the expiry is start plus millis * 10^6 nanoseconds, normalised |
| Timer.MillisecondTimer.Remaining | src/asdt1_driver/dependencies/serial/src/impl/unix.cc:72-79 | the remaining time in milliseconds, truncated, although seconds and nanoseconds are subtracted apart |
| Timer.TimespecFromMs | src/asdt1_driver/dependencies/serial/src/impl/unix.cc:99-106 | a normalised timespec of exactly that many milliseconds |

## Left out

- ROS plumbing: parameters, services, publishers, quality of service, logging, TF broadcasting; a TF lookup answers or fails.
- Floating point: coordinates after division, quaternion to matrix, IMU scale factors, float to integer conversion of height, time and ring in the driver record; the age check is on integer nanoseconds instead of a double of seconds.
- termios and ioctl configuration, baud rates, flow control, the Windows and macOS back ends, port enumeration, media device and video node enumeration: operating system calls.
- Calibration files, licence texts, driver version look-up, case-insensitive mode names, hardware-id search, version number parsing (a version is supported or not).
- dt1_device::reboot() and the setters of mode, frame rate and sync mode: a run is modelled for fixed settings.
- Field names other than the six known ones are kept as opaque text; the comparison of whole field lists uses it.
- PointCloud.WellFormed is asked of arriving clouds with x/y/z fields: the code reads and writes past the data of a cloud that announces more points than it carries, so its callers must not send one.
- CloudMerge.CombinedConserves: for fewer than 2^32 points; width and row_step are reduced modulo 2^32 beyond that, which the specification of the message includes but this lemma does not describe.
- CloudMerge.CountPoints: does not model a total of 2^64 points or more, for which size_t wraps.
- Combiner.PointCloudCombiner.TransformAll: the running ring offset is unbounded; the C++ int overflows only after some 32768 inputs of the largest ring.
- Combiner.PointCloudCombiner.TryPublishCombinedImu: sums and quotients are over real numbers, not doubles.
- CombinerRuns.StepConsistent: the transform that TF returns during one callback is a free choice; that TF takes time and depends on the stamp is not modelled.
- ImuTimeline.Unpacker.UnpackImuData: the device time is unbounded between resets; an int64 overflows after some 290 years of records.
- ImuTimeline.TimeInClosedForm: for positive reset times; a reset time that is zero or negative as an int64 stops the emission until the next reset, which the specification includes but this lemma does not describe.
- DeviceLink.Link.ReadTimestamp: a number beyond 64 bits saturates, as the GNU C library does where the C standard leaves it open.
- DeviceLink.Link.ReadLineUntil: nothing is claimed for a line in which a read times out; the code then treats the two parts as lines of their own.
- CdcDevice.DeviceCdc.StreamFrames: no timeout inside a line, as above; timeouts between lines and anywhere in the binary parts are allowed. A null callback is not modelled.
- CdcDevice.DeviceCdc.SkipAndStream: for streams that begin with a frame, for skipped frames in which the bytes of `END` stand only where they end the records and that carry at most 4095 records (they are read as lines, which end at 65536 bytes), and with no timeout inside the lines that their binary parts are read as.
- CdcEncoding.SkipFinds: as above, `END` stands nowhere else in the frame; with a payload that contains it the skip loop may stop earlier.
- HistDecoder.DeviceHist.UnpackHistFrame: the bytes of the second and third peaks and of the histogram bins are never read and have no name in the model.
- V4l2Capture.RunV4l2: opening the device, format negotiation, mmap and stream off are outside; the kernel is assumed to hand out only queued buffers and not to report more bytes than a buffer has.
- Negotiation.SetupStep: what a command does is the model's assumption about the device, after the names of the commands: `fl` stores a setting for the next startup. A command takes effect in the step in which its prompt comes, or possibly in one that throws. The period is a text; that it is 1000 / rate with two decimals is left to printf.
- Negotiation.StepKeepsInv: one exchange with the device is one step that ends, throws, or finds the device silent; the single bytes of the echo and of the prompt inside an exchange are not modelled here (`DeviceLink.Link.ReadToPrompt` and `ReadLineUntil` describe them). After stop() the line may be anything. A write that throws, or whose echo is not waited for, may or may not have reached the device.
- NegotiationRuns.Converges: for devices whose settings name known modes and that take their settings over when they reboot; silence is excluded: a step in which the thread waits leaves the machine where it is.
- DeviceThread.Thread.Run: stop() comes after a finite but arbitrary number of steps, and the device is silent in a finite but arbitrary number of steps, so that every loop ends; the machine has the runs without end too. The other thread of start() and stop() is not a thread of the model but an input that may come at any step.
- Restarting after the V4L2 thread has given up: it only clears `_running`, which is the model's stop; the races between the two threads' clean-up are outside.
- SerialLine.Serial.ReadLine: asks size >= 1 and size >= the length of the end-of-line string, as the code does of its callers: with less it writes behind its buffer.
- SerialImpl.SerialPort.Read: the clock is assumed to advance strictly between two readings, which makes the loop end; the extra wait for fixed-length reads and the over-read checks, which cannot fail, are outside.
- SerialImpl.SerialPort.Write: an interrupted call is retried, other errors of ::write count as a lost device, as in the code.
