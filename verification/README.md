# chessboard-vision in Dafny

A model of the decision logic of chessboard-vision, a program that watches a
physical chessboard through a camera, works out which moves are played, keeps
a chess engine's board in step with them and can relay the moves to Lichess.

The model covers the board logic that sits between the pixels and the chess
rules:

- **Geometry.** The corner ordering for the perspective warp and the warped
  board size (`BoardDetection`). The inner crop. The 64 square windows of the
  warped image (`GridExtractor`).
- **Per-square detectors.** The Gaussian background change detector with its
  focus set, intensity buckets and hand/move classifier (`ChangeDetector`).
  The cached, delta-driven and smoothed piece detector (`PieceDetector`).
- **Noise handler.** The IDLE / NOISE_ACTIVE / MOVE_PENDING state machine
  (`NoiseHandler`).
- **Reconciling with the engine.** Reconciling vision's occupancy with the
  engine: quiet moves, queen promotion, castling, en passant, captures
  (`GameState`). The game session that ties one frame together: focus set,
  stability count, cooldown, move inference (`GameSession`).
- **FEN pipeline.** Mapping detections to a FEN placement (`FenGenerator`).
  The FEN move detector (`MoveDetector`), the majority state tracker
  (`StateTracker`) and the stable move detector (`StableMoveDetector`).
- **Entry point and display.** The standalone main loop: two-square tracking,
  origin choice, forward-then-reverse move attempt (`MainLoop`). The
  renderer's radar and coordinate flip (`UiRenderer`).
- **Lichess client logic.** Colour detection, turn parity, last move, and the
  request the client would send (`LichessClient`).

`NoiseHandler.ProcessIdle`, `NoiseHandler.ProcessNoise` and
`NoiseHandler.ProcessPending` are the three branches of `NoiseHandler.Process`.
The `Process` row and the per-state lemmas (`IdleQuiet` to `PendingSettles`)
state their behaviour, so they have no rows of their own.

Shared vocabulary lives in `Basics`: Option, squares as `Sq(file, rank)`, the
64-square grid, distinct enumerations of sets, counts and Python floor
division. `Strings` holds Python's `str.split(sep)`, `str.split()`, `join`
and ASCII `lower()`.

## How the system is modelled

- **Chess rules.** python-chess is not re-implemented. `Chess.Position`
  carries the pieces, the side to move, the set of legal moves, the set of
  captures and the en passant squares as given data. Pushing a move is the
  parameter `after: (Position, Move) -> Position`. An `Engine` records the
  pushed moves.
- **Pixels.** Pixel numerics are left abstract. Square images are a type
  parameter `G`, and background models are a type parameter `M`. The
  following are all function parameters: z-scores, mean differences,
  changed-pixel percentages, the background update, the piece detector's
  `detect_piece` and `_has_changed`, and the acceptance hook of the Lichess
  session.
- **Set iteration order.** Python iterates sets and dicts in an order the
  program does not control. Where the result depends on that order (the first
  of several vanished squares, the two changed squares in the main loop, the
  order of legal moves), the order is an explicit sequence. It is constrained
  only to list the set without repeats (`Basics.Enumerates`).
- **Clock.** The wall clock is an input `now: real`, in seconds.
- **Errors.** An `IndexError` that the source would raise is an explicit
  `Raised` / `IndexError` outcome. One case is a malformed FEN placement in
  `detect_move`; the other is a history length of 0 in the state tracker.

Where the written description of the system and the code disagree, the model
follows the code. The change detector's docstring gives intensity buckets of
80 / 30 / 10 percent, but the code compares with 85 / 50 / 15
(change_detector.py:212-219), so the model uses 85 / 50 / 15.

## Model

| member | source | states |
|---|---|---|
| MoveDetector.ParseRow | move_detector.py:13-23 | every piece cell of a parsed rank is a non-digit character of that rank; a one-character rank that is a digit gives that many empty cells, and any other character gives one cell holding it |
| MoveDetector.ParseRowAppend | move_detector.py:15-22 | the cells of a concatenated rank are the cells of its first part followed by those of its second, so the cells follow the characters in order |
| MoveDetector.ParseFenGrid | move_detector.py:2-25 | the grid has at least one row and no digit or '/' survives as a piece |
| MoveDetector.GetAlgebraic | move_detector.py:27-35 | the name of grid cell (row, col) is the square of file col and rank index 7 - row, its digit is 8 - row |
| MoveDetector.DiffIndices | move_detector.py:58-66 | the differing cells are listed in row-major order, each once, and none is missed |
| MoveDetector.AssignRoles | move_detector.py:73-93 | role assignment only ever names on-board cells |
| MoveDetector.Uci | move_detector.py:108 | the move text is the origin's name followed by the destination's name |
| MoveDetector.CompareGrids | move_detector.py:58-110 | a detected move text is four characters |
| MoveDetector.TwoDiffIndices | move_detector.py:58-70 | two differing cells are found as exactly that ordered pair |
| MoveDetector.PairRoles | move_detector.py:77-93 | the role assignment for a pair is decided by vacated / filled, and any other change rejects |
| MoveDetector.CompareGridsComplete | move_detector.py:58-110 | every plain move (source emptied, empty destination filled with the same piece, nothing else changed) is detected as that move |
| MoveDetector.CompareGridsSound | move_detector.py:58-110 | every detected move is such a plain move, in either scan order of its two cells |
| MoveDetector.DetectMove | move_detector.py:37-110 | an IndexError is raised exactly when both texts are present and a grid is smaller than 8 x 8; a found move is four characters |
| MoveDetector.DetectMoveFound | move_detector.py:37-110 | two present texts whose grids differ by a plain move yield that move |
| MoveDetector.DetectMoveOnlyPlainMoves | move_detector.py:52-110 | a found move implies both texts present, both grids 8 x 8 and a plain move between them |
| StableMoveDetector.Init | stable_move_detector.py:10-26 | a new detector has nothing confirmed, no candidate, count 0 and is IDLE |
| StableMoveDetector.Calibrate | stable_move_detector.py:39-50 | before the first confirmation identical frames count up, a new frame restarts at 1, and the threshold confirms |
| StableMoveDetector.Advance | stable_move_detector.py:55-84 | the IDLE and TRANSITION rules: a differing frame starts a transition, the candidate counts up to CONFIRMED, a return to the confirmed placement is a false alarm, another placement restarts the count |
| StableMoveDetector.Commit | stable_move_detector.py:88-104 | the CONFIRMED step raises exactly when the comparison raises; otherwise it commits the candidate, resets to IDLE and returns the detected move |
| StableMoveDetector.Process | stable_move_detector.py:28-106 | no frame returns nothing and changes nothing; nothing is reported before the first confirmation; the threshold is never changed |
| StableMoveDetector.InitInv | stable_move_detector.py:10-26 | a new detector satisfies the state invariant |
| StableMoveDetector.ProcessKeepsInv | stable_move_detector.py:28-106 | every normal return keeps the invariant; a raise leaves a real candidate in CONFIRMED |
| StableMoveDetector.ReportedMoveIsPlain | stable_move_detector.py:88-104 | a reported move is the move detected between the old and the newly confirmed placement, which differ |
| StableMoveDetector.RaiseRepeats | stable_move_detector.py:88-93 | a detector left in CONFIRMED by a raise raises again on every later frame |
| StableMoveDetector.Run | stable_move_detector.py:28-106 | a run returns one result per frame unless a call raises |
| StableMoveDetector.CalibrationConfirms | stable_move_detector.py:39-50 | identical calibration frames count up and confirm on the threshold-th, reporting nothing |
| StableMoveDetector.FirstConfirmation | stable_move_detector.py:39-50 | threshold identical frames confirm the placement, one fewer does not |
| StableMoveDetector.TransitionCommits | stable_move_detector.py:66-104 | a transition held to the threshold commits on the last frame and reports there only |
| StableMoveDetector.SteadyMoveReported | stable_move_detector.py:55-104 | a new placement held for threshold frames is confirmed and its move reported on the last frame and no other |
| StableMoveDetector.FlickerIgnored | stable_move_detector.py:73-80 | returning to the confirmed placement mid-transition resets to IDLE and reports nothing |
| FenGenerator.PieceToFen | fen_generator.py:5-10 | a class maps to a FEN piece letter or '?', never a digit, '/' or space |
| FenGenerator.PieceToFenInjective | fen_generator.py:5-10 | the twelve known classes map to twelve different letters |
| FenGenerator.UnknownClass | fen_generator.py:47 | an unknown class maps to '?' |
| FenGenerator.GetChessSquare | fen_generator.py:12-30 | a square size of zero (board sizes 0 to 7) raises the division error; otherwise a pixel maps to an in-grid cell named by file gx and rank 7 - gy, or to the out-of-bounds marker with (-1, -1) |
| FenGenerator.AxisIndex | fen_generator.py:17-19 | the floor-divided index is within 0..7 exactly when the pixel lies inside the eight whole squares |
| FenGenerator.PixelInSquare | fen_generator.py:12-30 | a pixel lands on a cell exactly when it is inside the 8 x 8 block of whole squares, and then on the cell containing it |
| FenGenerator.CellOf | fen_generator.py:41-45 | a detection kept for the board sits on an in-grid cell |
| FenGenerator.MapDetectionsToBoard | fen_generator.py:32-57 | the mapping raises exactly when there is a detection and the square size is zero; no detections give the empty map; every key of the map is an in-grid cell |
| FenGenerator.MapDetections | fen_generator.py:32-57 | every key of the board map is an in-grid cell |
| FenGenerator.PlaceCell | fen_generator.py:44-55 | placing one detection only touches its cell, and replaces the entry only with strictly higher confidence |
| FenGenerator.MapDetectionsDomain | fen_generator.py:32-57 | a cell is in the map exactly when some detection lands on it |
| FenGenerator.MapDetectionsKeepsBest | fen_generator.py:50-55 | each cell holds the first detection of greatest confidence on it |
| FenGenerator.Board | fen_generator.py:63-67 | the board matrix is 8 x 8 |
| FenGenerator.Flush | fen_generator.py:77-82 | a flushed run of empty cells parses back to that many empty cells |
| FenGenerator.EncodeRow | fen_generator.py:70-83 | an encoded rank holds only digits and the rank's piece letters |
| FenGenerator.Ranks | fen_generator.py:69-83 | there are eight encoded ranks |
| FenGenerator.ParseEncodeRow | fen_generator.py:70-83 | parsing an encoded rank gives back its cells |
| FenGenerator.EncodeRowMergesRuns | fen_generator.py:70-83 | an encoded rank never has two digits in a row |
| FenGenerator.RanksParse | fen_generator.py:69-85 | every encoded rank parses back to its board row and contains neither '/' nor space |
| FenGenerator.GenerateFenFields | fen_generator.py:85-89 | a generated FEN splits at spaces into six fields: the placement, the side to move as given, and "-", "-", "0", "1" |
| FenGenerator.PlacementSplits | fen_generator.py:85-89 | the placement field of the generated FEN splits at '/' into the eight ranks |
| FenGenerator.GenerateParseRoundTrip | fen_generator.py:59-89 | the FEN move detector's parser reads the generated FEN back as the board matrix |
| FenGenerator.GeneratedRanksWellFormed | fen_generator.py:59-89 | the generated placement parses as an 8 x 8 grid and no rank has adjacent digits |
| FenGenerator.DetectionsRoundTrip | fen_generator.py:32-89 | the FEN of any detection list parses back to the board those detections produce |
| StateTracker.Init | state_tracker.py:4-8 | a new tracker has an empty history and nothing stable |
| StateTracker.Placement | state_tracker.py:18 | the placement is a space-free prefix of the FEN text that is either the whole text or followed by a space, so it is the longest space-free prefix |
| StateTracker.Window | state_tracker.py:6 | the history keeps the last history_length entries after an append |
| StateTracker.MostCommon | state_tracker.py:25-26 | the most common entry occurs in the history with its count, and no entry occurs more often |
| StateTracker.MajorityIsMostCommon | state_tracker.py:25-29 | a strict majority entry is the most common one |
| StateTracker.Update | state_tracker.py:10-41 | the history is updated; length 0 raises; a returned text is the current text; a change marks the stable placement as seen |
| StateTracker.UpdateFindsMajority | state_tracker.py:22-39 | with a full history holding a majority, it becomes the stable placement and "changed" means it differs from the last seen |
| StateTracker.UpdateWithoutMajority | state_tracker.py:22-41 | with no full history or no majority, nothing is returned and nothing else changes |
| StateTracker.WarmUpStep | state_tracker.py:19-23 | before the history fills, an update only appends |
| StateTracker.WarmUpFromInit | state_tracker.py:19-23 | four frames a, a, a, b from a fresh tracker of length 5 are appended one by one with nothing returned |
| StateTracker.ReturnsCurrentNotStable | state_tracker.py:36 | as written, frames a, a, a, b, b report b's text as the new stable FEN while a is the majority |
| StateTracker.UpdateIntended | state_tracker.py:10-41 | the corrected update returns the stable FEN whenever it returns one |
| StateTracker.UpdateIntendedKeepsInv | state_tracker.py:10-41 | the corrected update keeps every stored placement space-free |
| StateTracker.UpdateIntendedReturnsStable | state_tracker.py:30-39 | the corrected update's returned text has the stable placement |
| NoiseHandler.Initial | noise_handler.py:41-46 | a new handler is IDLE with nothing pending and zero counters |
| NoiseHandler.Reset | noise_handler.py:220-231 | a reset handler equals a new one |
| NoiseHandler.LiftedHint | noise_handler.py:95-98 | a lifted square is hinted exactly when one square changed, and it is that square |
| NoiseHandler.Process | noise_handler.py:48-218 | the reported state is the new state, the invariant is kept, and "stable" is reported only for a pending set held STABILITY_FRAMES frames, with those squares |
| NoiseHandler.InitialInv | noise_handler.py:41-46 | a new handler satisfies the invariant and is not blocked |
| NoiseHandler.IdleQuiet | noise_handler.py:75-77 | an empty frame in IDLE changes nothing and reports waiting |
| NoiseHandler.IdleToNoise | noise_handler.py:79-87 | more than NOISE_THRESHOLD changes from IDLE block, with the cooldown at zero |
| NoiseHandler.IdleToPending | noise_handler.py:88-106 | one to three changes from IDLE start a pending move with count 1 and the lifted hint |
| NoiseHandler.NoiseRules | noise_handler.py:108-148 | in NOISE_ACTIVE small frames advance the cooldown, large ones restart it, and at COOLDOWN_FRAMES an empty frame clears and a small one starts a pending move |
| NoiseHandler.PendingAbort | noise_handler.py:153-163 | a large change aborts a pending move and blocks |
| NoiseHandler.PendingReplaced | noise_handler.py:202-218 | a different small change replaces the pending set and restarts the count |
| NoiseHandler.RepeatedSetBecomesStable | noise_handler.py:183-200 | the same small set fed k times is pending with count k and reported stable exactly from STABILITY_FRAMES on |
| NoiseHandler.PendingSettles | noise_handler.py:164-182 | empty frames count towards stability, and the STABILITY_FRAMES-th returns IDLE, stable, with the pending squares |
| NoiseHandler.NoiseClears | noise_handler.py:111-124 | empty frames in NOISE_ACTIVE unblock after exactly COOLDOWN_FRAMES minus the cooldown |
| NoiseHandler.HandThenQuiet | noise_handler.py:79-124 | five changed squares block and five empty frames unblock |
| NoiseHandler.NoiseFeedsSmall | noise_handler.py:125-140 | small frames in NOISE_ACTIVE count the cooldown and start a pending move when it completes |
| NoiseHandler.StaleLiftedHint | noise_handler.py:125-200 | a pending move started from NOISE_ACTIVE reports the lifted square from before the noise |
| GameState.DifferencesReconstruct | game_state.py:53-57 | applying the vanished and appeared sets to the engine occupancy gives vision's occupancy back, and the reverse; both are empty exactly when the two agree |
| GameState.Appeared | game_state.py:56-57 | appeared squares are seen squares the engine has empty, disjoint from the vanished ones |
| GameState.ValidateMove | game_state.py:176-195 | the plain move if legal, else the queen promotion if legal, else nothing |
| GameState.CastlingFrom | game_state.py:114-126 | a king move from the vanished king square is found exactly when one of its castling moves matches the appeared squares |
| GameState.DetectCastling | game_state.py:104-127 | castling is reported exactly when some legal king castling move fits the vanished and appeared squares |
| GameState.DetectEnPassant | game_state.py:129-151 | en passant is reported exactly when a legal en passant pawn move fits the two vanished squares and the appeared one |
| GameState.DetectCapture | game_state.py:153-174 | a capture is unique, ambiguous or absent according to the number of candidates |
| GameState.OrderSizes | game_state.py:54-60 | the iteration lists have the sizes of the vanished and appeared sets |
| GameState.ProcessOccupancyChange | game_state.py:40-102 | a move is returned exactly with a confirmed status, is legal and is pushed; otherwise the engine is untouched |
| GameState.OneForOneCase | game_state.py:65-74 | one vanished and one appeared square give the validated move or "illegal move", and no other pattern does |
| GameState.CastlingCase | game_state.py:77-82 | castling is confirmed exactly for 2 / 2 patterns some castling move explains |
| GameState.EnPassantCase | game_state.py:86-91 | en passant is confirmed exactly for 2 / 1 patterns some en passant move explains |
| GameState.CaptureCase | game_state.py:93-100 | a 1 / 0 pattern is a confirmed capture with one candidate and ambiguous with several |
| GameState.OtherPatternsRejected | game_state.py:102 | every other pattern is "no valid change" and touches nothing |
| GameState.QuietMoveRecognised | game_state.py:40-74 | vision showing a legal quiet move makes the reconciler push exactly that move |
| GameState.CaptureRecognised | game_state.py:40-100 | vision showing only the origin emptied, with one matching capture, pushes that capture |
| PieceDetector.Initial | piece_detector.py:27-42 | a new detector has no references, cache or history |
| PieceDetector.UpdateHistory | piece_detector.py:73-83 | the new reading is appended and the history keeps its last HISTORY_SIZE readings |
| PieceDetector.Smoothed | piece_detector.py:85-96 | no history reads empty, fewer than three readings give the last one, otherwise presence means at least 60 percent true |
| PieceDetector.SmoothedIsPresenceRatio | piece_detector.py:92-96 | the integer test is the source's ratio test |
| PieceDetector.RatioThreshold | piece_detector.py:92-96 | the real ratio test t / n >= 0.6 is 5 t >= 3 n |
| PieceDetector.DetectAll | piece_detector.py:319-411 | the visual changes are the squares with no reference or a differing image, and each result is the smoothed or raw reading |
| PieceDetector.DetectAllKeepsInv | piece_detector.py:319-411 | histories stay within HISTORY_SIZE |
| PieceDetector.DetectAllHistory | piece_detector.py:383-384 | each square gets exactly one new reading, the one left in the cache |
| PieceDetector.DetectAllReading | piece_detector.py:351-381 | that reading is fresh when the square is processed or uncached, else the cached one |
| PieceDetector.DetectAllReference | piece_detector.py:386-407 | the reference moves to the current image exactly when processed and raw and smoothed agree |
| PieceDetector.DetectAllFrame | piece_detector.py:338 | squares outside the frame are untouched |
| PieceDetector.UpdateReferences | piece_detector.py:418-424 | the given squares' references become their images, the cache is cleared, histories are kept |
| PieceDetector.CalibrateReference | piece_detector.py:44-54 | references are replaced by the images and a fresh detection is cached for each |
| PieceDetector.ThreeReadingsDecide | piece_detector.py:73-96 | three agreeing readings in a row decide the smoothed result |
| PieceDetector.EndsWith | piece_detector.py:73-83 | appending a reading extends a trailing run of it |
| PieceDetector.RefreshSilencesChanges | piece_detector.py:347-350 | right after references are reset to a frame, the same frame shows no visual change |
| GameSession.Start | game_session.py:25-55 | a new session has no stable occupancy, count 0, no last move, and valid noise and detector states |
| GameSession.FocusSet | game_session.py:134-154 | as written: no focus on every 30th frame, else the occupied squares plus the legal destinations with their rank flipped |
| GameSession.FocusSetIntended | game_session.py:134-154 | corrected: the occupied squares plus the legal destinations in (file, rank) coordinates |
| GameSession.IntendedFocusCoversDestinations | game_session.py:145-154 | the corrected focus set contains every legal destination |
| GameSession.FocusSetMissesDestination | game_session.py:151-154 | as written, from the start position with e2-e4 legal, e4 is missing and the empty e5 is included |
| GameSession.Candidates | game_session.py:227-258 | every candidate is legal; a legal plain move from a missing to an extra square, and a legal capture from a missing square onto a seen square, are always candidates |
| GameSession.InferMove | game_session.py:227-265 | a move is inferred exactly when there is a single distinct candidate |
| GameSession.ProcessStableMove | game_session.py:181-225 | too many differences clear the count and a repeated observation counts up; a move is pushed exactly when the count, cooldown and noise gates pass and the inferred move is accepted, and then it is the inferred move, with references, noise and count reset |
| GameSession.CooldownAfterPush | game_session.py:200-218 | no second push within MOVE_COOLDOWN seconds of a push |
| GameSession.CountRestartsAfterPush | game_session.py:190-223 | a push resets the count to zero, and none of the next STABILITY_REQUIRED - 1 frames can push, whatever they show |
| GameSession.NoPushWhileCounting | game_session.py:190-205 | the count grows by at most one per frame, so no frame pushes before the count can reach STABILITY_REQUIRED |
| GameSession.OnFrame | game_session.py:113-179 | the status is Waiting exactly when the noise handler blocks; a move is pushed exactly when the frame passes every commit gate with the noise state of this frame, and it is the inferred move; otherwise the engine is unchanged |
| ChangeDetector.Init | change_detector.py:40-71 | a new detector is uncalibrated with no models and no focus |
| ChangeDetector.Calibrate | change_detector.py:92-113 | calibration fits one model per supplied square and marks the detector calibrated |
| ChangeDetector.UpdateReference | change_detector.py:442-454 | only the given square's model is refitted |
| ChangeDetector.UpdateAllReferences | change_detector.py:456-462 | every supplied square is refitted and the others are kept |
| ChangeDetector.UpdateAllIsEachUpdate | change_detector.py:456-462 | resetting the squares one at a time, in any order that visits every supplied square, is the same as resetting all of them |
| ChangeDetector.UpdateEachResetsVisited | change_detector.py:456-462 | resetting squares one at a time, in any order and with repeats, resets exactly the squares visited |
| ChangeDetector.SetFocus | change_detector.py:270-280 | an empty focus set means no focus; otherwise the focus is exactly the set |
| ChangeDetector.ClearFocus | change_detector.py:282-284 | clearing removes the focus and nothing else |
| ChangeDetector.ExaminedWithinFocusCount | change_detector.py:286-311 | with board squares supplied, a detection pass examines at most the focus count: the focus size under a focus, 64 otherwise |
| ChangeDetector.DetectChanges | change_detector.py:290-337 | uncalibrated gives nothing; reports lie within the examined squares; the set of modelled squares is kept |
| ChangeDetector.DetectChangesReports | change_detector.py:309-335 | a square is reported exactly when examined and over the threshold, with its score |
| ChangeDetector.DetectChangesRelearnsQuiet | change_detector.py:309-335 | in Gaussian mode the examined, unreported squares are relearned; nothing else changes |
| ChangeDetector.FocusRestricts | change_detector.py:306-311 | with a focus, squares outside it are neither reported nor relearned |
| ChangeDetector.Bucket | change_detector.py:212-219 | TOTAL above 85, PARTIAL above 50, LIGHT above 15, NONE otherwise, each both ways |
| ChangeDetector.BucketMonotone | change_detector.py:212-219 | more changed pixels never give a weaker bucket |
| ChangeDetector.Analyse | change_detector.py:202-229 | the intensity is the bucket of the percentage, and a circular change is never NONE |
| ChangeDetector.DetectChangesDetailed | change_detector.py:339-376 | uncalibrated gives nothing; every reported square has a real intensity |
| ChangeDetector.DetailedSplitsExamined | change_detector.py:357-376 | every examined square is either reported in detail or relearned |
| ChangeDetector.ClassifyHandPattern | change_detector.py:378-440 | hand squares are TOTAL plus non-circular PARTIAL; move candidates are circular PARTIAL; shadows are LIGHT |
| ChangeDetector.ClassifyVerdicts | change_detector.py:414-440 | the hand and move verdicts in terms of the counts, both ways, never both |
| ChangeDetector.ClassifyMoveCandidates | change_detector.py:406-430 | a move has exactly two candidates, and hand, candidate and shadow squares are disjoint |
| ChangeDetector.Predict | change_detector.py:487-506 | unknown exactly when uncalibrated, without a square or without its model; otherwise changed means the z-score exceeds the threshold |
| LichessClient.OrEmpty | lichess_client.py:136-138 | a missing or empty id reads as the empty text |
| LichessClient.SetMyColor | lichess_client.py:131-143 | white when the white id matches case-insensitively, else black when the black id matches, else unchanged |
| LichessClient.SetMyColorIgnoresCase | lichess_client.py:136-143 | ids equal up to ASCII case give the same colour |
| LichessClient.PlayingWhiteRecognised | lichess_client.py:136-141 | the player named as white is recognised as white |
| LichessClient.IsMyTurn | lichess_client.py:193-204 | never with no colour; white moves on an even number of moves, black on an odd one |
| LichessClient.TurnAlternates | lichess_client.py:193-204 | one more move flips whose turn it is |
| LichessClient.ExactlyOneSideToMove | lichess_client.py:193-204 | for any move list exactly one of white and black is to move |
| LichessClient.GetLastMove | lichess_client.py:206-211 | the last whitespace-separated move, or nothing for a blank list |
| LichessClient.LastMoveOfList | lichess_client.py:206-211 | the last move of a joined list is its last element |
| LichessClient.BlankListHasNoLastMove | lichess_client.py:206-211 | a blank list has no last move |
| LichessClient.MakeMove | lichess_client.py:147-164 | no request without a game; otherwise a post to the game's move URL for the move |
| LichessClient.MakeMoveDistinguishesMoves | lichess_client.py:161-164 | different moves go to different URLs |
| LichessClient.Resign | lichess_client.py:179-186 | no request without a game; otherwise a post to the game's resign URL |
| GridExtractor.SplitBoard | grid_extractor.py:32-58 | all 64 squares are keyed, each with the window of its file and rank, rank 1 at the bottom |
| GridExtractor.WindowInside | grid_extractor.py:33-46 | every window lies inside the image and has size rows // 8 by cols // 8 |
| GridExtractor.AxisInside | grid_extractor.py:34-42 | each of the eight cells along an axis lies within the image side |
| GridExtractor.PixelInOneWindow | grid_extractor.py:37-56 | a pixel lies in a square's window exactly when the square is (x // w, 7 - y // h) |
| GridExtractor.WindowsDisjoint | grid_extractor.py:37-56 | windows of distinct squares share no pixel |
| GridExtractor.CornerCells | grid_extractor.py:49-54 | a1 is the bottom-left cell and h8 the top-right |
| BoardDetection.ArgMin | board_detection.py:53-56 | the first index of a least value, as np.argmin picks it |
| BoardDetection.ArgMax | board_detection.py:54-57 | the first index of a greatest value, as np.argmax picks it |
| BoardDetection.Reorder | board_detection.py:49-58 | the four slots hold input points of least sum, least y - x, greatest y - x and greatest sum |
| BoardDetection.ReorderTiesToFirst | board_detection.py:53 | ties go to the earliest input point |
| BoardDetection.ReorderRectangle | board_detection.py:49-58 | an upright rectangle's corners in any order come out top-left, top-right, bottom-left, bottom-right |
| BoardDetection.OnlyCorner | board_detection.py:49-58 | among rectangle corners only corner k is extreme for slot k |
| BoardDetection.TargetsAlreadyOrdered | board_detection.py:66-68 | the warp targets are already in the order the reordering produces |
| BoardDetection.BoardSize | board_detection.py:66 | the board side is the smaller display side less the margin |
| BoardDetection.DefaultBoardSize | board_detection.py:61-66 | the default display gives a 620-pixel board |
| BoardDetection.SliceBound | board_detection.py:79 | Python slice bounds are clamped to the sequence |
| BoardDetection.CropInnerSquares | board_detection.py:74-81 | the crop runs from offset to size - offset, and the size it reports is the real side of that slice exactly when the offset is at most half the board |
| BoardDetection.CropReportsItsSize | board_detection.py:74-81 | the reported size is the crop's real side exactly when the offset is at most half the board |
| UiRenderer.Init | ui_renderer.py:9-18 | a new renderer has no highlight, radar or lifted square |
| UiRenderer.Denormalize | ui_renderer.py:154-159 | for black both axes are mirrored, otherwise the square is unchanged |
| UiRenderer.DenormalizeInvolution | ui_renderer.py:154-159 | mirroring twice gives the square back and keeps it on the board |
| UiRenderer.ExpectedOccupied | ui_renderer.py:28-35 | the expected occupancy is the engine's with the rank flipped |
| UiRenderer.DestinationsFrom | ui_renderer.py:50-54 | the radar lists exactly the destinations of legal moves from the square |
| UiRenderer.UpdateRadar | ui_renderer.py:26-57 | a lifted square exactly when one expected square is missing and holds a piece of the side to move; the radar lists its legal destinations and the highlight equals the radar |
| UiRenderer.RadarForgetsPrevious | ui_renderer.py:39-40 | the previous radar never survives an update |
| UiRenderer.RadarNeedsOneMissing | ui_renderer.py:42 | no or several missing squares leave the radar empty |
| MainLoop.Track | main.py:186-198 | a new change set restarts the count and marks a move pending; a repeat counts up; a quiet frame counts up only a pending, already counting change |
| MainLoop.SteadyChangeCounts | main.py:187-193 | a new change set repeated k + 1 times is pending with count k |
| MainLoop.TrackAllSnoc | main.py:186-198 | tracking a run frame by frame is tracking its prefix and then the last frame |
| MainLoop.QuietFrames | main.py:194-198 | quiet frames leave a fresh pending change alone and count up one already counting |
| MainLoop.Origin | main.py:215-230 | the origin is the occupied square, or the side to move's when both are occupied; nothing when both are empty |
| MainLoop.MoveText | main.py:235 | the move text is four characters |
| MainLoop.MoveTextIsSquareNames | main.py:235 | the move text is the two square names |
| MainLoop.ParseSquare | main.py:238 | a parsed square is on the board |
| MainLoop.FromUci | main.py:238 | a parsed move text gives a non-promotion move between board squares |
| MainLoop.FromUciMoveText | main.py:235-238 | parsing the move text gives the move back |
| MainLoop.Attempt | main.py:237-257 | the forward move if legal, else the reverse move if legal, else nothing; only a legal move is pushed |
| MainLoop.Resolve | main.py:201-257 | a pushed move is legal, not a promotion, joins the two changed squares and is pushed; two empty squares push nothing |
| MainLoop.ResolveOrderIrrelevant | main.py:203-230 | unless both squares hold pieces of one colour, the iteration order of the two squares does not matter |
| MainLoop.ResolveFindsLegalMove | main.py:215-257 | a legal plain move between the two squares whose reverse is not legal is found |
| MainLoop.Step | main.py:186-265 | references are refreshed exactly when two changes have held stable_frames frames, and tracking then resets; a pushed move is legal and joins the changed squares |
| MainLoop.OnlyTwoSquareChangesResolve | main.py:201 | change sets of any size other than two push nothing |

## Left out

- Pixel numerics are left out because they are floating-point image processing, not decision logic. They appear only as function parameters: the Gaussian z-score and background update, `_calculate_change_intensity`, `detect_piece` and its circle and symmetry heuristics, contour finding, the perspective warp, CLAHE enhancement and colour calibration.
- python-chess is left out. Legal moves, captures, en passant squares and the board after a push are given data (`Chess.Position`, the `after` parameter), because the rules engine is a separate library.
- All network and HTTP is left out: connecting, streaming, seeking a game and the status code returned by Lichess. `LichessClient.MakeMove` and `LichessClient.Resign` model only the request that would be sent, or the absence of a game.
- The lichess session subclass and the stream thread are left out. So are `board_lock` and other concurrency, because locking has no meaning in a single-threaded functional model.
- Drawing is left out: the main loop's lifted-piece highlight (main.py:112-184), `draw`, `_draw_interface`, the FPS counter and status text.
- The game session's radar update (game_session.py:271-291) is left out of `GameSession.OnFrame`; the renderer's radar itself is `UiRenderer.UpdateRadar`.
- Calibration tools, logging and the file-backed settings loader are left out (the model starts from `ChangeDetector.DEFAULT_SETTINGS`).
- `Basics.IsDigit` accepts only ASCII digits, while Python's `str.isdigit` also accepts other Unicode digits. `Strings.Lower` folds ASCII letters only, while Python's `lower()` folds every cased letter.
- `FenGenerator.GenerateFen` requires every key to be a cell 0..7. Python's negative list indices would wrap, but `map_detections_to_board` never produces such keys.
- `GameSession.OnFrame` leaves out the `orientation_flipped` rotation and the FPS counter; it takes the frame counter and the cut squares as inputs.
- `ChangeDetector.Calibrate` and `ChangeDetector.UpdateReference` do not model the `reference_squares` copy kept for compatibility, because nothing in the core reads it.
- `BoardDetection.Reorder` works on unbounded integers and so does not model int32 wrap-around of `add` and `diff` on coordinates near 2^31, which camera images never reach.
- `MainLoop.Step` assumes the two changed squares are board squares (keys of the grid), as they are in the program; `chess.square` on other values is not modelled.
- The main loop's SKIP_FRAMES frame skipping (main.py:22, 94-98) is left out: `MainLoop.Step` models one processed frame, and skipped frames only poll the keyboard.
- The main loop's 'c' recalibration key (main.py:286-289) is left out because keyboard input is I/O. What it does, refitting every square's background to the current image, is `ChangeDetector.Calibrate`.
- `FenGenerator.MapDetections`, `FenGenerator.CellOf`, `FenGenerator.Place` and `FenGenerator.Winner` require a non-zero square size. The raise for board sizes 0 to 7 is modelled once, by `FenGenerator.GetChessSquare` and `FenGenerator.MapDetectionsToBoard`, and the fold is stated only where it runs.
- `NoiseHandler.Process` does not model the fall-through `return (self.state, {})` (noise_handler.py:70), because the three states are exhaustive.

## Findings

| source | as written | input that shows it | evidently intended | confidence | as-written member | corrected member |
|---|---|---|---|---|---|---|
| game_session.py:151-154 | the focus set adds each legal destination as (file, 7 - rank), although the occupancy and the detector's squares use (file, rank) | start position with e2-e4 legal: e4 = (4, 3) is left out and the empty e5 = (4, 4) is added | add the destination as (file, rank), so that every legal destination is re-analysed on focused frames | medium, not executed | GameSession.FocusSetMissesDestination | GameSession.IntendedFocusCoversDestinations |
| state_tracker.py:36 | on a change of stable placement the current frame's FEN is returned, not the majority placement | history of 5 fed a, a, a, b, b: the fifth call returns b with changed = true while the stable placement is a | return the FEN whose placement is the most common one, as the docstring says | medium, not executed | StateTracker.ReturnsCurrentNotStable | StateTracker.UpdateIntendedReturnsStable |
