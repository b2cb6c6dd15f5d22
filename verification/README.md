# Models and proofs of the tracking, counting and service-manager core

This project models six parts of the repository in Dafny and proves what they
keep over every input and every run. Each part that changes objects or buffers
in place is modelled by classes, arrays and loops. Their methods are proved
equal to functions, and the properties are proved about those functions.

* **Affinity masks** (`Strtoul`, `StrtoulForms`, `Affinity`, `AffinityParser`,
  `AffinityTexts`): the printer and parser of 64-CPU masks. A mask is the set
  of its bit positions. Numbers are read the way section 7.22.1.4 of ISO C11
  describes for base 0, with octal, hexadecimal, signs and saturation. Where C
  leaves the outcome open (a 65th item, a shift by 64 or more) the result is
  `Undefined`.
* **Double-NUL lists** (`DoubleNull`, `Unformat`, `Format`, `Dependencies`,
  `TextLists`, `Setters`, `ServiceConfig`): the converter between blocks of
  NUL-ended strings and CRLF text, with its in-place removal of blank lines and
  its unsigned wrap-around, and the two setters that merge service and group
  dependencies and resolve their names. The service manager keeps the list it
  decodes from the block it is given; which names it knows is an arbitrary
  function.
* **Log rotation** (`LogRotation`): the loop that cuts what was read at line
  ends, with the answers of renames arbitrary.
* **Visitor tracking** (`Matching`, `Tracking`, `TrackLife`, `TrackFrames`,
  `TrackRuns`, `TrackHistories`, `Detections`, `ByteTracking`,
  `TrackingService`): two-stage matching, the NEW/TRACKED/LOST/REMOVED state of
  every track, the event stream, and one tracker a camera on a shared id
  generator. Cost matrices and solver answers are inputs, so the results hold
  for every matcher that gives an injective assignment.
* **Line crossing** (`LineCrossing`, `CrossingDetector`, `LineHistories`,
  `LineSides`, `DetectorObject`): the debounced side change per line and
  visitor, and the detector over interleaved visitors, purges and changes of
  the lines.
* **Transactions** (`Transactions`, `SessionSignals`, `SessionObject`,
  `EngineRuns`, `EngineSessions`, `EngineObject`): the forward-only state
  machine and the saturating score of a visitor, and the engine that holds the
  sessions.
* **Zones** (`RayCasting`, `Slants`, `Segments`, `ThrottledZones`): point in
  polygon and line crossing over the reals, with division by zero as a result,
  and the throttled in/out state of people in zones.

Where the code and its documentation or its intent differ, the code is
modelled:

* A track that matching reports as reacquired is TRACKED afterwards only if
  both stages matched it. The loop that marks tracks lost looks at the two
  lists of unmatched rows separately, so a match in one stage alone leaves the
  track LOST with count 1, and a match in neither counts two frames at once.
* An unmatched NEW track becomes LOST and later exits without having entered.
* `format_double_null` looks one cell past the block when it decides what
  follows the last string; the text ends in two NULs only if that cell is NUL.
* The affinity parser checks neither the upper end of a range nor the number of
  items; when it is defined is stated for lists of any length.
* After a rotation the log's size counter starts from the length of the piece
  written to the old file, because the variable that a byte-order mark would
  set still holds it. A second rotation in one read cuts at a place that need
  not be a line end. A request to rotate is cleared before the file is renamed,
  so a rename that fails loses it.
* The dependency setters resolve the entries they put back along with the new
  ones. A service that is gone since it was stored makes every later setting of
  groups to a text fail.
* A zone update that divides by zero returns no events, though zones before
  that one may have been entered or left.
* The dwell heuristic at the checkout asks for PURCHASE_COMPLETED, which is not
  allowed from AT_CHECKOUT; only a visitor in PAYMENT_INTERACTION completes.
* The cooldown of a signal counts from time 0 when it never fired. The state
  bounds the signals on exactly those clocks that do not fall back below 30.
* Reading an edge in the other direction may change the answer for a point near
  it, since the small number is added to the denominator either way: cutting a
  zone along a slanting line does not partition its points.
* `entered_at` is a naive UTC time whose `timestamp()` depends on the time zone
  of the machine; a session takes whatever number that gives.
* A rectangle zone exactly as high as the small number in the denominator
  divides by zero at every height inside it.

## Model

| member | source | states |
|---|---|---|
| Strtoul.DecimalDigits | tools/nssm/src/nssm.cpp:16-23 | a printed number starts with 0 only if it is 0, so base 0 never takes it for octal, and its digits denote it |
| Strtoul.ReadDecimal | tools/nssm/src/nssm.cpp:16-23 | reading a printed number in base 0 gives the number and stops right after it, whatever follows that is no digit and no x |
| StrtoulForms.ReadsExactly | tools/nssm/src/nssm.cpp:16-23 | white space, a sign, and octal, decimal or hexadecimal digits are read whole in the base they show; a value of 2^32 or more is read as the largest number, and a minus sign takes any other modulo 2^32 |
| Affinity.RunsAreMaximal | tools/nssm/src/service.cpp:107-119 | a list of ranges is what gets printed if and only if it is ascending, with gaps between its ranges, and covers exactly the CPUs of the mask |
| Affinity.CanonicalUnique | tools/nssm/src/service.cpp:107-119 | two lists of ascending, separated ranges with the same union are the same list |
| AffinityTexts.HyphenExactlyWhen | tools/nssm/src/service.cpp:137-145 | a mask is printed with a hyphen if and only if three CPUs in a row are in it |
| Affinity.CollectRuns | tools/nssm/src/service.cpp:107-119 | the 64-slot array is filled with exactly the maximal runs, and the index of the last one stays inside it |
| Affinity.PrintRun | tools/nssm/src/service.cpp:130-145 | a run fits its two size limits, takes at most 5 characters and a terminator out of the 6 cells allowed for it, and is joined by a comma for two CPUs and a hyphen for more |
| Affinity.MaskToString | tools/nssm/src/service.cpp:97-149 | printing never fails; the zero mask gives a null string, any other a terminated text inside 6 cells a run |
| AffinityParser.FillSlots | tools/nssm/src/service.cpp:157-206 | the reading loop over the real text and its 64 slots reads what the recursive grammar reads, with the code's error returns 2 and 3 |
| AffinityParser.OrBits | tools/nssm/src/service.cpp:208-210 | the shifts give the union of all ranges, and every one is defined exactly when each non-empty range lies in 0..63 |
| AffinityParser.StringToMask | tools/nssm/src/service.cpp:151-213 | for every text, including null, empty and malformed ones, the code and mask are those of the grammar |
| AffinityParser.ParseItems | tools/nssm/src/service.cpp:157-206 | a comma list of any length is read as exactly its items if there are at most 64, and otherwise runs past the 64 slots |
| AffinityParser.Denotation | tools/nssm/src/service.cpp:151-213 | a comma list of any length means the union of its ranges if and only if there are at most 64 and every upper end that closes a non-empty range is a CPU; otherwise a slot or a shift is undefined, and the parser never rejects it |
| AffinityTexts.BigNumbersRefused | tools/nssm/src/service.cpp:169-173 | a number from 64 on is refused with code 2, at the front or after any items |
| AffinityTexts.WrongEndsRefused | tools/nssm/src/service.cpp:176-203 | a number followed by anything but a comma or a hyphen, or by a hyphen at the end, is refused with code 3 |
| AffinityParser.RoundTrip | tools/nssm/src/service.cpp:97-213 | for every 64-bit mask, parsing what was printed gives the mask back, the zero mask through a null pointer |
| AffinityParser.CanonicalisingTwice | tools/nssm/src/settings.cpp:283-289 | reading, printing and reading again is the same as once, and two texts get one canonical form exactly when they mean one mask |
| DoubleNull.StringsOfBlock | tools/nssm/src/registry.cpp:353-382 | a block decodes to the list it was made from, whatever lies behind it |
| Unformat.RemovePair | tools/nssm/src/registry.cpp:407-409 | taking out a CRLF joins what was before and after it |
| Unformat.StripInPlace | tools/nssm/src/registry.cpp:394-414 | the loop ends, its index survives the wrap below 0, and text and count are those of the text without blank lines |
| Unformat.StripLines | tools/nssm/src/registry.cpp:394-414 | from any point of the loop on, the text becomes the non-blank lines that remain, in order, with one line end between them |
| Unformat.StripAndCopy | tools/nssm/src/registry.cpp:394-427 | removing and copying together give the block of the non-blank lines |
| TextLists.KeptLines | tools/nssm/src/registry.cpp:394-414 | the lines kept are those that are not empty, in order |
| TextLists.StoredLine | tools/nssm/src/registry.cpp:417-427 | a line is stored cell by cell, with a NUL for each lone LF |
| Unformat.UnformatDoubleNull | tools/nssm/src/registry.cpp:385-430 | any normalised text becomes the block of its non-blank lines in a buffer of exactly the reported length; no text becomes a null pointer |
| Format.FormatBlock | tools/nssm/src/registry.cpp:353-382 | a block reads as its strings on lines of their own, then a NUL, then what the cell after the block makes of the last one |
| Format.FormattedEndsInTwoNuls | tools/nssm/src/registry.cpp:362-379 | the result ends in exactly two NULs if and only if the cell after the block holds a NUL |
| Format.FormatDoubleNull | tools/nssm/src/registry.cpp:353-382 | the buffer has exactly the counted length and holds the whole formatted text |
| Format.RoundTrip | tools/nssm/src/registry.cpp:353-430 | for every list of non-empty strings without NUL, CR and LF, formatting and unformatting gives back the identical block, but for the empty list, the only one whose text is empty and so comes back as a null pointer |
| Format.UnformattedHoldsLines | tools/nssm/src/registry.cpp:385-430 | the list that comes out is the non-blank lines in order if and only if none of them holds a NUL or a lone LF |
| Dependencies.GroupsSet | tools/nssm/src/settings.cpp:419-508 | the list handed on to set the groups, before names are resolved, holds exactly the services there were, and every entry given as a group with one identifier |
| Dependencies.ServicesSet | tools/nssm/src/settings.cpp:539-591 | the list handed on to set the services, before names are resolved, holds the groups there were and no more if and only if the text names none |
| TextLists.KindExactly | tools/nssm/src/service.cpp:528-541 | the groups picked out are the entries that begin with the identifier, the services all others, each in order |
| TextLists.PrefixedExactly | tools/nssm/src/settings.cpp:451-478 | every entry made a group begins with one identifier and is otherwise as given |
| Dependencies.ListsCommute | tools/nssm/src/settings.cpp:419-591 | for the lists handed on, before names are resolved, the order of the two setters matters for no kind if and only if the services text names no group |
| Dependencies.ResolvedExactly | tools/nssm/src/service.cpp:438-480 | setting fails if and only if some entry is unknown; otherwise every entry is replaced by its own canonical name, in order |
| Dependencies.ResolvedKinds | tools/nssm/src/service.cpp:438-480 | resolving names and picking out a kind can be done in either order, so no entry changes its kind |
| Dependencies.GroupsResolved | tools/nssm/src/settings.cpp:419-508 | setting groups that resolve leaves canonical services as they were and stores the names of the groups given |
| Setters.GroupsSetTo | tools/nssm/src/settings.cpp:419-508 | setting groups takes effect if and only if every service kept and every group given is known, and then stores the names of both; otherwise nothing changes |
| Setters.ServicesSetTo | tools/nssm/src/settings.cpp:539-591 | setting services takes effect if and only if every group kept and every entry given is known; groups among the entries then join those kept |
| Setters.GroupsKeptExactlyWhen | tools/nssm/src/settings.cpp:539-591 | where the groups stored are canonical, setting services keeps them if and only if some entry given is unknown or none of them is a group |
| Setters.ServicesAlwaysKept | tools/nssm/src/settings.cpp:419-508 | where the services stored are canonical, setting groups keeps them whether it takes effect or not |
| Setters.SettersCommute | tools/nssm/src/settings.cpp:419-591 | where the list stored is canonical, the results of both setters agree in either order if and only if the services text names no group or one of the two fails |
| Setters.OrderIrrelevantExactlyWhen | tools/nssm/src/settings.cpp:419-591 | for every stored list and all texts, the results agree in either order if and only if a stated condition on the names known holds: a new name is unknown, or both kept lists are known and no group hides among the services, or neither is, or one is and the setting that could not be made at first would have changed nothing |
| Setters.GoneServiceBreaksOrder | tools/nssm/src/settings.cpp:419-591 | while a deleted service is stored, setting a known group and then a known service loses the group, and the other order does not |
| Dependencies.EntriesAreLines | tools/nssm/src/settings.cpp:438-444 | passing the terminator along with the text changes no entry; entries are the non-blank lines if and only if none holds a lone LF |
| ServiceConfig.CopyKind | tools/nssm/src/service.cpp:525-542 | the copied block holds exactly the entries of one kind, in order, and a NUL follows it |
| ServiceConfig.Canonicalise | tools/nssm/src/settings.cpp:446-478 | the block decodes to the same entries, each with exactly one identifier, whether or not a copy was needed |
| ServiceConfig.Merge | tools/nssm/src/settings.cpp:480-494 | the overlap at the last cell neither drops nor joins entries: the merged block decodes to the old entries followed by the new |
| ServiceConfig.ResolveAll | tools/nssm/src/service.cpp:433-482 | the zeroed buffer of 256 cells an entry is large enough, and decodes to the canonical names, or some entry is unknown |
| ServiceConfig.Service.SetServiceDependencies | tools/nssm/src/service.cpp:374-495 | the dependencies become the canonical names of all the entries, or stay as they are with code 5 when one is unknown |
| ServiceConfig.Service.GetDependencies | tools/nssm/src/service.cpp:497-547 | a null pointer exactly when there are no dependencies at all, otherwise the block of one kind |
| ServiceConfig.Service.SetDependOnGroup | tools/nssm/src/settings.cpp:419-508 | the new dependencies are the canonical names of the old services and the prefixed lines of the text, or the old ones with -1 when a name is unknown; an empty text returns 0 and drops the groups |
| ServiceConfig.Service.SetDependOnService | tools/nssm/src/settings.cpp:539-591 | the new dependencies are the canonical names of the old groups and the lines of the text, or the old ones with -1 when a name is unknown; an empty text returns 0 and drops the services |
| ServiceConfig.Service.GetDependOn | tools/nssm/src/settings.cpp:510-536 | what is read back is the entries of one kind, each on a line of its own |
| LogRotation.BytesConserved | tools/nssm/src/io.cpp:462-554 | over any reads, requests and rename answers, the files one after the other hold what was there followed by every byte read |
| LogRotation.ClosedFilesStay | tools/nssm/src/io.cpp:462-554 | a file that was rotated away is never written again, and the order of files is kept |
| LogRotation.FirstFileEndsALine | tools/nssm/src/io.cpp:477-533 | unless the first rename fails, the first file a read closes ends at the first line end of what was read |
| LogRotation.SecondRotationExactlyWhen | tools/nssm/src/io.cpp:477-533 | a due read is cut twice if and only if another line end has an index from p + 2 up to the read's length less p + 1, p being the first one's; it closes one file a cut, but for cuts whose rename fails |
| LogRotation.SecondCut | tools/nssm/src/io.cpp:529-531 | the second cut falls p + 1 cells behind the line end that was found, and ends a line if and only if that cell is one; the piece is a file of its own unless a rename failed, and then belongs to the file that stays open |
| LogRotation.FilesEndLinesExactlyWhen | tools/nssm/src/io.cpp:477-533 | for all rename answers, the files a read closes all end at line ends if and only if no rotation is due or the buffer holds a line end wherever the shifted index cuts and the rename does not fail |
| LogRotation.RotatedInsideALine | tools/nssm/src/io.cpp:477-533 | a concrete read whose second file ends inside a line |
| LogRotation.LongFirstLine | tools/nssm/src/io.cpp:477-533 | when the first line takes half of the read there is one cut: the next line starts the new file, or all of it goes to the old file when the rename fails |
| LogRotation.FeedCounts | tools/nssm/src/io.cpp:474-553 | with a limit, the size counter never falls behind the open file |
| LogRotation.CounterRunsAhead | tools/nssm/src/io.cpp:536-541 | after a read's last rename moved the file, the counter exceeds the new file's length by the last piece written before it, by at least that much when it found no file, and by no more than before when all renames failed |
| LogRotation.CounterWithoutRotation | tools/nssm/src/io.cpp:536-547 | otherwise the excess only grows when the counter was 0, by the stale length of the last write |
| LogRotation.LiveFileBounded | tools/nssm/src/io.cpp:474-533 | over any run with a limit in which no rename fails for good, no line end of the open file lies at or past offset limit - 1, or the buffer's last cell when that is further on |
| LogRotation.FailedRenameBreaksBound | tools/nssm/src/io.cpp:474-514 | with a rename that fails, a line end read when the open file is past the limit stays in it |
| LogRotation.RequestTakenExactlyWhen | tools/nssm/src/io.cpp:474-493 | a request for a rotation is taken, and the flag cleared, by the first read that holds a line end and by no other |
| LogRotation.BelowTheLimit | tools/nssm/src/io.cpp:474-554 | without a request, and with no limit or below it, a read closes no file and everything goes to the open one |
| LogRotation.RotatesExactlyWhen | tools/nssm/src/io.cpp:474-533 | with renames that do not fail, a read closes a file if and only if there is a request, or a limit that counter and read reach, and it holds a line end |
| LogRotation.RequestServedExactlyWhen | tools/nssm/src/io.cpp:474-513 | a read closes a file if and only if there is a request, or a limit that counter and read reach, and some rename of the read does not fail |
| LogRotation.RequestExactly | tools/nssm/src/service.cpp:1565-1570 | a request counts unless the service was stopped, after which it changes nothing |
| LogRotation.RequestLostExactlyWhen | tools/nssm/src/io.cpp:492-513 | a request is lost, the flag cleared and no file closed, if and only if a read with a line end takes it and all its renames fail; everything read then goes to the open file |
| LogRotation.Logger.HandleRead | tools/nssm/src/io.cpp:474-553 | one turn of the thread on its buffer, with address, in and i as the code moves them, loses no byte and leaves the state the functions describe |
| Matching.Partition | backend/app/services/tracking_service.py:135-163 | matches stay injective; every row and every column is either matched or listed as unmatched, never both, and the counts add up |
| Matching.HungarianMatch | backend/app/services/tracking_service.py:135-163 | the matches kept are the solver's pairs within the threshold, and the two other lists are exactly the rest |
| Detections.HighAt | backend/app/services/tracking_service.py:224-224 | the strong detections are exactly those at or above the high threshold, in order |
| Detections.LowAt | backend/app/services/tracking_service.py:225-225 | the weak detections are exactly those from the low up to the high threshold, in order |
| Detections.UsedExactly | backend/app/services/tracking_service.py:224-225 | each detection is used as strong or weak, by its confidence alone, as often as it was detected |
| Detections.CandidatesInOrder | backend/app/services/tracking_service.py:228-238 | the rows of the first stage are the tracked, the new and the lost tracks, in this order and each in order of the list; those of the second are the lost ones |
| Detections.PairsWithinCost | backend/app/services/tracking_service.py:150-154 | a pair of the solver counts in a stage if and only if its cost is at most 1 - match_thresh |
| Detections.WeakServeLost | backend/app/services/tracking_service.py:258-270 | a weak detection serves the lost track it is matched with, and tracks that were not lost are given none |
| TrackLife.StepByCase | backend/app/services/tracking_service.py:245-297 | every frame leaves a track good or expired; a lost track is TRACKED again if and only if both stages matched it |
| TrackLife.WordExtends | backend/app/services/tracking_service.py:245-302 | one frame extends the events of a track to a legal word, and expiry completes it |
| TrackLife.EntersExactlyWhen | backend/app/services/tracking_service.py:289-292 | a new track enters in the last frame of a run if and only if every frame since its creation matched it with high confidence and there were min_hits - 1 of them |
| TrackLife.RemovedExactlyWhen | backend/app/services/tracking_service.py:272-302 | a track that stays unmatched is removed exactly in frame (max_lost + 1) div 2 + 1 |
| TrackFrames.FrameKeepsInvariant | backend/app/services/tracking_service.py:208-305 | track ids stay distinct and below the next one; NEW means hits equal age and are below min_hits, TRACKED means seen now, LOST means a count from 1 to max_lost |
| TrackFrames.TracksConserved | backend/app/services/tracking_service.py:282-302 | tracks after a frame plus EXIT events are tracks before plus unmatched high-confidence detections |
| Detections.TracksByConfidence | backend/app/services/tracking_service.py:224-302 | tracks after a frame plus EXIT events are tracks before plus detections at or above the high threshold, less the matches of the first stage |
| Detections.WeakFrame | backend/app/services/tracking_service.py:224-302 | a frame whose detections are all below the high threshold makes no track, gives out no id, and leaves only LOST tracks |
| Detections.FieldsAfter | backend/app/services/tracking_models.py:282-303 | what a frame makes of each field of a track: age, hits, and the confidence and time of the last detection given to it |
| Detections.FieldsOfNew | backend/app/services/tracking_service.py:381-395 | every field of a new track |
| Detections.EventsCarry | backend/app/services/tracking_service.py:397-415 | every event of a frame carries its camera, its time and the ids of one of its tracks; only an exit has a dwell, the time since the track began |
| TrackFrames.DetectionFeedsOne | backend/app/services/tracking_service.py:237-282 | every high-confidence detection updates the one track it is matched with, or makes one new track |
| TrackFrames.EventsOfTrack | backend/app/services/tracking_service.py:245-302 | of all the events of a frame, those of one visitor are exactly the word of its track, in order |
| TrackFrames.EventsOfOther | backend/app/services/tracking_service.py:281-302 | a visitor without a track gets no event, but for an ENTER at its creation when one hit is enough |
| TrackRuns.RunKeepsInv | backend/app/services/tracking_service.py:419-483 | after any run of frames, resets and removals on any cameras, for every matcher: each tracker is in order, no visitor id is in use twice, and the events of every visitor are ENTER? REACQUIRED* EXIT? |
| TrackRuns.NeverReissued | backend/app/services/tracking_models.py:56-61 | a visitor alive with an id that was issued by some earlier moment was alive then, with the same track on the same camera; no id is given twice |
| Detections.PersonsAt | backend/app/services/tracking_service.py:469-469 | a tracker is given exactly the detections of class 0, in order |
| Detections.ProcessExactly | backend/app/services/tracking_service.py:454-476 | a frame counts on the ids of its camera and of all cameras, the latter from 101, and touches no other camera |
| Detections.DropsExactly | backend/app/services/tracking_service.py:478-483 | a reset keeps the next track id of the camera, a removal begins it again at 1, and neither touches anything else |
| TrackHistories.ServiceFollows | backend/app/services/tracking_service.py:419-483 | over any run, a track's state, its end and all its events are those of its own life, given what its own camera's frames matched it with |
| TrackHistories.VisitorEntersExactlyWhen | backend/app/services/tracking_service.py:289-292 | over any run of the service, a new track enters if and only if the next min_hits - 1 frames of its camera come and each matched it with high confidence |
| TrackHistories.VisitorRemovedExactlyWhen | backend/app/services/tracking_service.py:272-302 | over any run of the service, a track left unmatched exits if and only if (max_lost + 1) div 2 + 1 frames of its camera come, and is then on no camera |
| ByteTracking.ByteTracker.MatchAndMark | backend/app/services/tracking_service.py:224-280 | both matching stages and both marking loops, on shared track objects, do to every track what its own detections say |
| ByteTracking.ByteTracker.Update | backend/app/services/tracking_service.py:208-305 | one call on the objects is one frame of the value model: tracks, next ids and events; what it returns are the TRACKED and NEW tracks |
| TrackingService.TrackingService.Process | backend/app/services/tracking_service.py:454-476 | one camera's frame makes its tracker if need be, uses only persons, leaves every other camera's tracks alone, and returns exactly the TRACKED and NEW tracks |
| TrackingService.TrackingService.ResetCamera | backend/app/services/tracking_service.py:478-480 | a reset empties one camera and leaves ids and the other cameras as they were |
| TrackingService.TrackingService.RemoveCamera | backend/app/services/tracking_service.py:482-483 | removing a camera leaves the generator and the other cameras as they were |
| LineCrossing.ConfirmsExactlyWhen | backend/app/services/line_crossing.py:210-250 | for any samples, the next one confirms a crossing if and only if it is off the line and the last k samples off the line all lie opposite the last confirmed side |
| LineCrossing.CrossingsAlternate | backend/app/services/line_crossing.py:210-250 | confirmed directions strictly alternate, and the last one leads to the side taken for confirmed |
| LineCrossing.OnLineIgnored | backend/app/services/line_crossing.py:219-220 | samples on the line can be left out of any run without a trace |
| LineSides.SideExactly | backend/app/services/line_crossing.py:105-116 | the side of a point is how far left of the line it lies times the square of its length, negated for a flipped line, however far along the line it is |
| LineSides.SideSign | backend/app/services/line_crossing.py:105-116 | left is positive, right negative, and exactly the points on the line have none; flipping exchanges left and right |
| LineSides.TurnedRun | backend/app/services/line_crossing.py:105-376 | over any run, flipping one line, or exchanging its ends, reverses every crossing reported on it and changes nothing else |
| LineSides.EventTypeExactly | backend/app/services/line_crossing.py:367-376 | inwards is entering and outwards is leaving, whatever the type of the line |
| LineSides.ActiveExactly | backend/app/services/line_crossing.py:315-315 | the lines looked at in a frame are the active ones, in order |
| LineCrossing.VisitorLineState.UpdateSide | backend/app/services/line_crossing.py:199-250 | the object's three fields change as the debounce function says, in every branch |
| CrossingDetector.VisitorsIndependent | backend/app/services/line_crossing.py:297-366 | over any run, a visitor's crossings are those of the run with everybody else taken out |
| LineHistories.DetectorFollowsRule | backend/app/services/line_crossing.py:297-366 | over any run in which a line keeps its min_crossings, the crossings reported for a visitor since it was last forgotten are exactly those of the debounce rule on its own samples |
| CrossingDetector.OccupancyConserved | backend/app/services/line_crossing.py:271-376 | over any run, entered minus exited on a line is the number of visitor episodes last confirmed inside minus the number that began inside |
| DetectorObject.LineCrossingDetector.ProcessFrame | backend/app/services/line_crossing.py:305-366 | the two loops over lines and visitors, on one state object a key, make the crossings of the run model, in order |
| DetectorObject.LineCrossingDetector.RemoveLine | backend/app/services/line_crossing.py:281-289 | a line goes with every visitor's state on it; the result says whether it was there |
| DetectorObject.LineCrossingDetector.PurgeVisitor | backend/app/services/line_crossing.py:297-303 | exactly one visitor's states on one camera go |
| Transactions.SignalTaken | apps/backend/services/transaction_engine.py:148-168 | with a clock past 30 the cooldown rejects nothing the detected set does not, and the score stays min(105, sum of the signals' scores) |
| Transactions.CooldownRejectsExactlyWhen | apps/backend/services/transaction_engine.py:148-160 | the cooldown rejects a signal the detected set does not if and only if the clock is below 30 |
| Transactions.BoundNeedsTheClock | apps/backend/services/transaction_engine.py:316-326 | a visitor on the way who enters a checkout zone is AT_CHECKOUT in any case, and has the checkout signal that goes with it if and only if the clock is 30 or more |
| Transactions.CrossLive | apps/backend/services/transaction_engine.py:303-465 | every crossing keeps a live session live, takes it forward, and persists only at rising levels, with a clock past 30 or before any signal; below 30 a session without signals stays without |
| Transactions.PayingIsLikely | apps/backend/services/transaction_engine.py:58-101 | a live session that is paying or has paid has a score of 80 or more and is at level MEDIUM or HIGH |
| Transactions.SessionRun | apps/backend/services/transaction_engine.py:303-465 | over any run on a clock that does not fall back below 30, from wherever it starts, score and state bound each other through the signals, and at most three predictions are persisted, at strictly rising levels |
| Transactions.LiveExactlyWhen | apps/backend/services/transaction_engine.py:148-160 | whatever visitors do, all sessions stay live on a clock if and only if the clock never reads below 30 after it has reached 30 |
| Transactions.FallingClockBreaksBound | apps/backend/services/transaction_engine.py:148-160 | a run on a clock that falls back to 20 ends in payment with a score of 40, at level LOW |
| Transactions.CompletesExactlyWhen | apps/backend/services/transaction_engine.py:353-417 | a zone exit completes a purchase if and only if the visitor was in PAYMENT_INTERACTION and the dwell was long enough for the zone; from AT_CHECKOUT it never does |
| SessionSignals.EntryExactly | apps/backend/services/transaction_engine.py:316-351 | the exact signals, state, entry time and visited zones after entering a zone of any combination of kinds |
| SessionSignals.ExitExactly | apps/backend/services/transaction_engine.py:353-417 | the exact signals after leaving: queue over 20 s, cash for a checkout over 90 s, card from 30 to 90 s or at a terminal over 10 s, UPI from 10 to 30 s or at a QR code over 5 s |
| SessionSignals.TimeExactly | apps/backend/services/transaction_engine.py:428-465 | the exact signals and state after a look at the time, and when it reports a change |
| SessionSignals.PersistedExactly | apps/backend/services/transaction_engine.py:419-424 | a prediction is persisted, at the level reached, if and only if a new signal was recorded and that is not the level persisted last |
| SessionSignals.TimeOnlyWhenQuiet | apps/backend/services/transaction_engine.py:274-278 | time is looked at after a crossing if and only if the crossing recorded nothing new |
| SessionSignals.TransitionsAre | apps/backend/services/transaction_engine.py:58-67 | the twelve transitions there are |
| SessionSignals.ScoreOfEach | apps/backend/services/transaction_engine.py:73-82 | what each signal is worth |
| SessionSignals.LevelOfScore | apps/backend/services/transaction_engine.py:90-101 | HIGH from 90 points, MEDIUM from 63, LOW from 37 |
| SessionObject.TransactionSessionState.HandleZoneCrossing | apps/backend/services/transaction_engine.py:303-424 | the object's fields, the fired flag and the persisted level are those of the value model, in every branch of both events |
| SessionObject.TransactionSessionState.LookAtTime | apps/backend/services/transaction_engine.py:428-465 | what time alone does to the object: shopping after 10 s, browsing after 180 s, long dwell and the move to checkout after 480 s |
| EngineRuns.ApplyLive | apps/backend/services/transaction_engine.py:223-301 | every operation with a clock past 30, or before any session got anywhere, keeps every live session's invariant, and no session goes backwards |
| EngineRuns.RunIsLive | apps/backend/services/transaction_engine.py:223-483 | in every engine reached on a clock that does not fall back below 30, state bounds signals and signals determine the score; whoever pays has 80 or more |
| EngineRuns.PredictionsRise | apps/backend/services/transaction_engine.py:303-465 | in such a run at most three predictions are persisted for each session since it began, at strictly rising levels |
| EngineSessions.SeenExactly | apps/backend/services/transaction_engine.py:238-260 | every track shown with an id from 0 on has a session afterwards, made if need be and last seen now, and no other changes |
| EngineSessions.CrossedOnly | apps/backend/services/transaction_engine.py:261-280 | the crossing loop touches only the sessions its events name, and begins and ends none |
| EngineSessions.UpdatesExactly | apps/backend/services/transaction_engine.py:261-280 | an update is sent for an event if and only if it recorded a signal or time moved the visitor on; a move the crossing alone made sends none |
| EngineSessions.EndedExactly | apps/backend/services/transaction_engine.py:469-483 | a frame ends exactly the sessions of its camera that it does not show and that were last seen more than 15 s before it |
| EngineObject.TransactionEngine.ProcessFrame | apps/backend/services/transaction_engine.py:223-291 | one frame on the dictionary of session objects is one operation of the run model; the sessions ended are exactly the stale ones |
| EngineObject.TransactionEngine.HandleLostTracks | apps/backend/services/transaction_engine.py:469-483 | exactly the camera's sessions unseen for more than 15 s are taken out and marked as exited |
| EngineObject.TransactionEngine.NotifyTrackEnd | apps/backend/services/transaction_engine.py:293-299 | a track's end takes its session out, if there is one, and touches no other |
| RayCasting.ContainsPoint | backend/app/services/zone_manager.py:56-68 | the toggling loop answers the parity of the edges right of the point, and divides by zero if and only if some edge does |
| RayCasting.CyclicRotation | backend/app/services/zone_manager.py:56-68 | the answer does not depend on the vertex a polygon starts with |
| Slants.TogglesExactlyWhen | backend/app/services/zone_manager.py:66-67 | without a division: an edge toggles if and only if its ends are on different sides of the height and the point is left of it, by cross multiplication |
| Slants.ContainsExactlyWhen | backend/app/services/zone_manager.py:56-68 | for any polygon that cannot divide by zero, a point is inside if and only if it is left of an odd number of the edges across its height, by cross multiplication |
| Slants.TriangleExactly | backend/app/services/zone_manager.py:56-68 | a right triangle is what lies right of its left leg, from its lower leg up, and left of the hypotenuse, moved outwards by the epsilon |
| Slants.TriangleBackExactly | backend/app/services/zone_manager.py:56-68 | listed the other way round it is the same with the hypotenuse moved inwards |
| Slants.FaultyHeights | services/cv-pipeline/zone_manager.py:71-82 | rectangles of height 10^-12 in the one zone manager, and 10^-9 in the other, divide by zero |
| RayCasting.OutsideTheHeight | backend/app/services/zone_manager.py:56-68 | above or below all vertices a point is outside and nothing is divided |
| RayCasting.OutsideToTheLeft | backend/app/services/zone_manager.py:56-68 | left of every place where an edge meets its height, a point is outside any polygon, because a closed line is straddled an even number of times |
| RayCasting.OutsideToTheRight | backend/app/services/zone_manager.py:56-68 | right of every place where an edge meets its height, a point is outside |
| RayCasting.CutAlongDiagonal | backend/app/services/zone_manager.py:56-68 | for one point: it is in the whole exactly when it is in one part and not in the other, if and only if the cut, read in both directions, does not divide by zero and toggles alike |
| RayCasting.ReadsAlikeExactlyWhen | backend/app/services/zone_manager.py:66-66 | an edge gives one answer in both directions at all points if and only if it is level, or upright and not exactly epsilon high |
| RayCasting.CutPartitionsExactlyWhen | backend/app/services/zone_manager.py:56-68 | cutting a polygon partitions all its points if and only if the cut is level or upright and no edge can divide by zero |
| RayCasting.UprightCut | backend/app/services/zone_manager.py:66-66 | a level cut, and an upright one whose height is not the epsilon, reads alike in both directions at every point |
| RayCasting.SlantingCutDisagrees | backend/app/services/zone_manager.py:66-66 | every slanting edge has a point at the height of its lower end that its two directions answer differently |
| RayCasting.UnitDiagonalDisagrees | backend/app/services/zone_manager.py:66-66 | the instance for the diagonal of the unit square |
| RayCasting.RectangleIsHalfOpenBox | backend/app/services/zone_manager.py:56-68 | a rectangle, listed either way round, is its half-open box, unless its height is exactly the small number in the denominator |
| RayCasting.RectanglesShareAPoint | backend/app/services/zone_manager.py:56-68 | two rectangles share a point exactly when their boxes overlap by more than a side; neighbours never do |
| RayCasting.HitsAreExact | backend/app/services/zone_manager.py:150-157 | each active zone that contains the point is found as often as it is loaded, and no other zone at all |
| RayCasting.HitsInOrder | backend/app/services/zone_manager.py:150-157 | the zones found are exactly the active ones that contain the point, in the order loaded |
| RayCasting.WithoutExactly | backend/app/services/zone_manager.py:147-147 | removing a zone leaves those with another id, in order |
| RayCasting.ZoneManager.GetZonesForPoint | backend/app/services/zone_manager.py:150-157 | the hits in the order loaded; one active zone that divides by zero loses the answer for all |
| RayCasting.ZoneManager.RemoveZone | backend/app/services/zone_manager.py:144-148 | the result says whether a zone had the id; other cameras keep theirs |
| Segments.CrossedExactlyWhen | services/cv-pipeline/zone_manager.py:84-104 | the sign test holds if and only if step and line are not parallel and meet in a point that is an end of neither |
| ThrottledZones.LineReachedExactlyWhen | services/cv-pipeline/zone_manager.py:125-126 | a zone drawn as a line is reached if and only if the last position is known and the step from it meets the line in one point that is an end of neither |
| ThrottledZones.PolygonReachedExactlyWhen | services/cv-pipeline/zone_manager.py:122-126 | a polygon of three points or more is ray casting with 10^-9; fewer points, and other shapes, are never reached |
| ThrottledZones.FiresExactly | services/cv-pipeline/zone_manager.py:128-158 | which event one zone fires, when, with what in it, and what is remembered afterwards |
| ThrottledZones.EventsAlternateAndKeepDistance | services/cv-pipeline/zone_manager.py:107-166 | over any run, the state changes of a person and zone name, entries and exits, alternate between clean-ups, those of one kind are a throttle apart even across clean-ups, and the stored state is what they say; an update that raised may have made some without returning them |
| ThrottledZones.ReturnedExactlyWhen | services/cv-pipeline/zone_manager.py:107-160 | the events returned along a run are all the state changes if and only if no update raised after making one; they then alternate and keep their distance |
| ThrottledZones.ExitWithoutEntry | services/cv-pipeline/zone_manager.py:71-160 | a run in which the first update raises after an entry and the only event ever returned is the exit |
| ThrottledZones.LineFiresOnce | services/cv-pipeline/zone_manager.py:130-145 | a zone drawn as a line fires at most once for a person between clean-ups |
| ThrottledZones.LagExactlyWhen | services/cv-pipeline/zone_manager.py:121-158 | for any state and distinct names: after an update a zone still calls for an event if and only if it did before and the stored time of that event, 0 without one, is less than the throttle ago |
| ThrottledZones.StateLagsExactlyWhen | services/cv-pipeline/zone_manager.py:107-161 | over any run: after an update with distinct names, the state of a polygon disagrees with the geometry if and only if it did before and the event needed is held back, because the last one of its kind was less than the throttle ago, or there was none and the time itself is below the throttle |
| ThrottledZones.SharedNamesDisagree | services/cv-pipeline/zone_manager.py:121-158 | for any state and throttle, two polygons of one name make a person outside enter and leave in a single update if and only if neither event is throttled |
| ThrottledZones.OtherPeopleUntouched | services/cv-pipeline/zone_manager.py:107-160 | an update changes nobody else's presence, entry times or last events |
| ThrottledZones.KeysNeverClash | services/cv-pipeline/zone_manager.py:130-151 | the string keys of throttles are distinct for different people, zones or kinds, whatever characters the names hold |
| ThrottledZones.ThrottledZoneManager.LoadConfig | services/cv-pipeline/zone_manager.py:51-69 | the zones become those with at least two points, in order, up to the first entry that cannot be read; an unreadable text leaves the zones as they were |
| ThrottledZones.LoadedExactly | services/cv-pipeline/zone_manager.py:51-69 | of entries that can be read the zones loaded are those with at least two points, in order, and an entry that cannot be read hides all behind it |
| ThrottledZones.ThrottledZoneManager.UpdateTrack | services/cv-pipeline/zone_manager.py:107-160 | the loop over the zones on the two dictionaries makes the events of the run model; what it did before a division by zero stays, but its events are lost |

## Left out

- Kalman filters, boxes, IoU, NumPy and SciPy: the cost matrix and the solver's assignment of each frame are inputs; so are real-valued thresholds, without rounding.
- AffinityParser.StringToMask: where C leaves the outcome open it gives `Undefined` and says nothing about what a machine would do.
- Unformat.UnformatDoubleNull: takes text in which every CR begins a CRLF, with the spare cell behind it that the source reads.
- Format.FormatDoubleNull: needs a readable cell behind the block, since the source looks at it.
- ServiceConfig.Service.SetServiceDependencies: the names known are an input, taken to be storable, shorter than 256 cells and of the kind of the entry, and where two settings are compared to be names of themselves; handles, failing calls of the registry and the service manager, and printed messages are not modelled.
- ServiceConfig.Service.SetDependOnGroup: takes text in which every CR begins a CRLF, as the converter does.
- ServiceConfig.Service.SetDependOnService: takes text in which every CR begins a CRLF, as the converter does.
- Heap and registry failures, and the freeing of buffers, in all of the converters.
- LogRotation.Logger.HandleRead: one byte per character, and reads, writes and reopening that succeed; retries, complaints, byte-order marks and the creation dispositions other than CREATE_ALWAYS and OPEN_ALWAYS are not modelled, and the 64-bit counter does not wrap.
- LogRotation.LiveFileBounded: for renames that succeed or find no file; `FailedRenameBreaksBound` is the other case.
- TrackRuns.NeverReissued: `VisitorIDGenerator.reset`, which nothing in the tracking service calls, is not an operation of the runs.
- TrackingService.TrackingService.Process: the Pydantic frame it builds from the active tracks, timings and log lines are not modelled.
- TrackHistories.VisitorRemovedExactlyWhen: for a max_lost that is not negative.
- LineHistories.DetectorFollowsRule: for a line that keeps its min_crossings when it is replaced.
- CrossingDetector.OccupancyConserved: counts crossings by direction; positions, names and times carried by an event are not modelled.
- Transactions.SessionRun: one clock reading serves one operation, where the code asks for the time at each step; what a zone's name and type are taken to mean are flags of the zone.
- EngineObject.TransactionEngine.ProcessFrame: database writes, WebSocket messages and the ids of sessions are not modelled.
- ThrottledZones.StateLagsExactlyWhen: for updates that did not raise; the zones after one that divides by zero are not looked at.
- JSON and dictionary conversions, status reports and bounding-box variants of the zone tests: they would only add easy members.
- The HTTP and WebSocket services, repositories, reports, camera capture, and the service manager's process control and user interface.
