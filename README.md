# mishka-bot content engine, modelled in Dafny

mishka-bot is a Telegram bot that publishes scheduled posts into a channel. It sends:

- a group of ten pictures plus an anecdote;
- a group of four videos plus an anecdote.

The media come from category folders (`ero-real`, `ero-anime`, `standart-art`, `single-meme`, `standart-meme`, `video-meme`, `video-ero`, `video-auto`). The anecdotes come from one text file, whose entries are separated by a line of fifty `=`. Files that have been published are moved to a per-category archive. An operator command reports how many posts and days the stock still allows, and which category will run out first.

The project models that engine and some small helpers around it. One module stands for each part of the source:

| module | file | what it models |
|---|---|---|
| `Wrappers` | — | `Option` and `Result` |
| `PyStr`, `PyPath` | — | the parts of Python's `str` and `os.path` that the code relies on |
| `Categories` | autopost.py, utils_autopost.py | the eight categories, `_get_folder_by_category`, the archive folder of `move_file_to_archive` |
| `FileValidity` | utils_autopost.py | `is_valid_file` |
| `Anecdotes` | utils_autopost.py | `count_anecdotes` and `get_top_anecdote_and_remove`: parsing, removing and rewriting the anecdote file |
| `Forecast` | utils_autopost.py | `predict_10pics_posts`, `predict_3videos_posts`, `predict_full_days`, as loops over a copy of the counts, proved against closed-form bounds |
| `Autopost` | autopost.py, utils_autopost.py | the two publication callbacks over a `Store` class (folders, archive, anecdote file) and `get_random_file_from_folder` |
| `StatsReport` | autopost.py | the integer part of `stats_command` |
| `Utils` | utils.py | the chat check, `random_time_in_range`, `parse_time_from_string` |
| `Coffee` | handlers/coffee_mishka.py | the ten-second window of `/coffee` as a `CoffeeCounter` class |

Things outside the program appear as parameters:

- A folder is a list of directory entries, each with a name, a regular-file flag and a size.
- Each `random.choice` or `random.randint` becomes a natural number `pick`, reduced modulo the number of candidates.
- Slot j of a callback draws its file with `draw(2j)`, and the file of its fallback category with `draw(2j+1)`.
- Whether `send_media_group` and `send_message` succeed is given as two booleans.
- `time.time()` is the real number `now`.

The model follows the code as written, including these behaviours:

- The callbacks take no lock.
- Selection does not hold back a file it already picked for an earlier slot. So one post can pick the same file twice, and moving it the second time fails.
- A failed move is not caught. It ends the archiving loop, and the files after it stay where they are.
- The anecdote is removed before any media is chosen, and it is not put back when the post is abandoned.

## Model

| member | source | states |
|---|---|---|
| Categories.FromName | autopost.py:57-73 | a name maps to the category with exactly that name; a string that names no category maps to None |
| Categories.NameRoundTrip | autopost.py:57-72 | each of the eight categories is recognised from its own name |
| Categories.FolderByCategory | autopost.py:37-73 | a category name gives that category's content folder; any other string gives None |
| Categories.ArchiveDir | utils_autopost.py:109-127 | the eight names go to their configured archive folders, any other name to `archive/<name>` |
| Categories.ArchiveDestination | utils_autopost.py:107-133 | the destination keeps the file's basename, and for a known category it is that basename inside the category's archive folder |
| Categories.UnknownCategoryArchivePath | utils_autopost.py:125-132 | for a category outside the eight, the destination is literally `archive/<category>/<basename>` |
| FileValidity.IsValidFile | utils_autopost.py:28-52 | an accepted file exists, is not empty, does not end in `.gitkeep`, and has a non-empty extension from the accepted list (after lower-casing) |
| FileValidity.GitkeepHasNoValidExtension | utils_autopost.py:38-52 | no path ending in `.gitkeep` has an accepted extension |
| FileValidity.ValidByExtension | utils_autopost.py:38-52 | conversely, an existing, non-empty file with an accepted extension is valid |
| FileValidity.MediaFileIsValid | utils_autopost.py:28-52 | `dir/stem.ext`, with an accepted `ext` and a non-empty size, is valid |
| FileValidity.UnlistedByLength | utils_autopost.py:50 | every accepted extension is four or five characters long |
| PyStr.StripIsTrimmedInfix | utils_autopost.py:60 | `strip()` returns a substring with no whitespace at either end |
| PyStr.StripPadded | utils_autopost.py:66 | `strip()` removes exactly the whitespace around a trimmed text |
| PyStr.SplitPiecesFree | utils_autopost.py:66 | no piece of `split(sep)` contains `sep` |
| PyStr.SplitFree | utils_autopost.py:66 | a text without `sep` splits into itself |
| PyStr.SplitAtFirst | utils_autopost.py:66 | splitting at the first occurrence yields the text before it, then the pieces of the rest |
| PyStr.Lower | utils_autopost.py:51 | lower-casing keeps the length and maps every character through ASCII lower-casing |
| PyPath.Basename | utils_autopost.py:131 | the basename has no `/` and is what follows the last `/` |
| PyPath.Extension | utils_autopost.py:51 | `splitext` gives an empty extension or a suffix of the path that starts with its only dot and has no `/` |
| PyPath.ExtensionOfJoin | utils_autopost.py:51 | the extension of `join(dir, stem + ext)` is `ext` |
| PyPath.BasenameOfJoin | utils_autopost.py:131-132 | the basename of `join(dir, name)` is `name` |
| PyPath.JoinPlain | utils_autopost.py:127 | joining two relative parts puts exactly one `/` between them |
| Anecdotes.CountAnecdotes | utils_autopost.py:82-91 | `count_anecdotes`: 0 without a file or with a blank one, otherwise the number of non-blank stripped pieces, never more than the pieces of the split |
| Anecdotes.SeparatorIsEquals | utils_autopost.py:6 | the separator is fifty `=` characters |
| Anecdotes.PiecesWellFormed | utils_autopost.py:66 | every anecdote read from a file is non-empty, already stripped, and free of the separator |
| Anecdotes.TakeAnecdote | utils_autopost.py:54-79 | nothing is taken exactly when the count is zero; otherwise the anecdote is the one at the drawn index |
| Anecdotes.TakeRemovesOne | utils_autopost.py:66-77 | after taking, the file holds the other anecdotes in their old order, and the count is one less |
| Anecdotes.RenderRoundTrip | utils_autopost.py:75-91 | a rewritten file is already stripped, reads back as exactly the anecdotes written, and counts as many |
| Anecdotes.PiecesOfJoin | utils_autopost.py:66-77 | splitting the joined text (with any leading newline) and cleaning the pieces gives back the pieces |
| Anecdotes.JoinTrimmed | utils_autopost.py:75-77 | the joined text is trimmed, and empty only when there is nothing to join |
| Forecast.PredictTenPicsPosts | utils_autopost.py:158-245 | the count returned is the largest n for which n posts fit (step by step and in closed form); it is at most the anecdotes, a third of ero-real and half of ero-anime |
| Forecast.PredictThreeVideosPosts | utils_autopost.py:247-295 | the same for three-video posts; at most the anecdotes and the video-meme count |
| Forecast.PredictFullDays | utils_autopost.py:297-406 | the same for full days; at most a quarter of the anecdotes |
| Forecast.SpendTenPictures | utils_autopost.py:224-241 | the loop's deductions for one ten-picture post are the step function's |
| Forecast.SpendThreeVideos | utils_autopost.py:279-291 | the same for one three-video post |
| Forecast.SpendDay | utils_autopost.py:365-402 | the same for one day |
| Forecast.TenPicturesCost | utils_autopost.py:224-241 | one post uses 1 anecdote, 3 ero-real, 2 ero-anime and 5 from standart-meme, standart-art and single-meme; art and single are used when present; videos are untouched |
| Forecast.ThreeVideosCost | utils_autopost.py:279-291 | one post uses 1 anecdote and 3 videos, 1 to 3 of them video-meme; ero and auto are used when present; pictures are untouched |
| Forecast.FullDayCost | utils_autopost.py:365-402 | one day uses 4 anecdotes, 9 ero-real, 6 ero-anime, 15 from the meme/art/single group (art and single up to 3 each), and 3 videos |
| Forecast.RunExtends | utils_autopost.py:178-243 | one more loop turn spends a step when the checks pass and stops otherwise |
| Forecast.RunMatchesClosedForm | utils_autopost.py:178-404 | n loop turns succeed exactly when the closed-form bound allows n, and they leave the closed-form remainder |
| Forecast.ForecastIsLargestFeasible | utils_autopost.py:178-404 | where the loop stops, exactly the counts up to that point are feasible |
| Forecast.Downward | utils_autopost.py:178-404 | anything fewer than a feasible count is feasible |
| Forecast.Beyond | utils_autopost.py:178-404 | anything more than an infeasible count is infeasible |
| Forecast.Monotone | utils_autopost.py:178-404 | more stock never makes fewer posts feasible |
| Forecast.CoversShortfall | utils_autopost.py:312-363 | the linear form of the fallback bound says what the `max(0, need - have)` form says |
| Autopost.UsableFlags | utils_autopost.py:99-100 | one flag per directory entry, telling whether it is a regular, valid file |
| Autopost.ValidNamesMembers | utils_autopost.py:99-100 | the candidates are exactly the names of the usable entries |
| Autopost.RandomFile | utils_autopost.py:93-105 | no file is returned exactly when the folder has no usable entry; a returned file is available |
| Autopost.LookupFacts | autopost.py:132 | the recheck finds a file's entry exactly when some entry of its folder has that name |
| Autopost.RecheckPasses | autopost.py:131-138 | the second `is_valid_file` check never fails for a file just drawn |
| Autopost.SelectSlot | autopost.py:107-119 | a slot yields no file exactly when none of its categories has one; a file it yields fits the slot (the fallback only when the first has none) |
| Autopost.SlotOptions | autopost.py:107-119 | one pick per slot, from that slot's two draws, in slot order |
| Autopost.SelectSound | autopost.py:107-126 | a completed selection is the draws in order; an aborted one stops at the first slot without a file |
| Autopost.SelectComplete | autopost.py:107-126 | conversely, draws that all succeed complete the selection, and the first failed draw aborts it at that slot |
| Autopost.SelectedSound | autopost.py:107-126 | the same for the callbacks' own slot lists |
| Autopost.ChosenFit | autopost.py:107-141 | every chosen file fits its slot and is in its folder |
| Autopost.MissingMeansEmpty | autopost.py:121-126 | a post gives up at a slot only when all its categories are empty, and every earlier slot had a file |
| Autopost.PicturesFit | autopost.py:86-141 | a ten-picture post records ten available files; plain slots use their own category; slot 2 uses standart-meme exactly when standart-art is empty, and slot 4 exactly when single-meme is empty |
| Autopost.VideosFit | autopost.py:192-240 | a video post records the meme first; ero and auto are used exactly when they have a file, and video-meme otherwise |
| Autopost.MemeBacksFallbacks | autopost.py:201-240 | a fallback slot whose backup category has a file always yields one |
| Autopost.VideosRunOutOnlyFirst | autopost.py:192-240 | a video post can only give up at the mandatory video-meme, and only when that folder is empty |
| Autopost.ArrangedFit | autopost.py:243-259 | every file in sending order is available and present |
| Autopost.DestinationOfPick | utils_autopost.py:131-132 | a picked file goes to its category's archive folder under its own name |
| Autopost.WithoutMembers | utils_autopost.py:133 | removing a name keeps exactly the other entries |
| Autopost.WithoutUnique | utils_autopost.py:133 | removing a name keeps the names of a folder unique |
| Autopost.MoveOne | utils_autopost.py:107-133 | a move fails exactly when the file is no longer in its folder; otherwise it records that file and keeps the set of folders |
| Autopost.MoveOneRemoves | utils_autopost.py:133 | a successful move takes that file out of its folder and leaves the others |
| Autopost.ArchiveRun | autopost.py:165-167 | a run moves every file, or stops at the failing one having moved those before it |
| Autopost.ArchiveRunStep | autopost.py:166-167 | one more turn of the archiving loop extends the run by one move, or fails there |
| Autopost.ArchiveRunMoves | autopost.py:166-167 | the moves of a run record the files in the order given |
| Autopost.ArchivedRemovesPicks | autopost.py:165-167 | a completed run takes each moved file out of its folder and leaves every other entry |
| Autopost.ArchiveKeepsUnique | autopost.py:165-167 | archiving keeps the names in each folder unique |
| Autopost.DistinctPicksAllMove | autopost.py:165-167 | distinct files that are present all move |
| Autopost.ArchiveFailsOnlyOnRepeat | autopost.py:165-167 | a run over present files fails only when a file was picked twice |
| Autopost.LaterMovesKeepFailure | autopost.py:166-167 | once a move fails, the rest of the list is not moved |
| Autopost.AvailableIsPresent | utils_autopost.py:99-105 | a drawn file is in its folder |
| Autopost.Post | autopost.py:76-285 | a callback run ends disabled exactly when autopost is off, with no anecdote exactly when the file holds none (and then nothing changes), out of a slot, with a failed send (never when both sends complete, and with media untouched), posted, or with a failed move |
| Autopost.EarlyExitsKeepFiles | autopost.py:84-163 | a post that ends before archiving leaves every folder and the archive as they were |
| Autopost.AnecdoteTakenFirst | autopost.py:99-102 | an enabled post ends at once when there is no anecdote; otherwise the anecdote is removed before anything else, whatever happens later |
| Autopost.ArchivedMeaning | autopost.py:165-167 | a completed run appends the moves to the archive in selection order and removes exactly those files |
| Autopost.ArchiveOnlyAfterSending | autopost.py:143-167 | folders and archive change, or the post counts as posted, only when both sends succeeded |
| Autopost.PostedFilesArchived | autopost.py:165-167 | a published post archives each used file once, under its recorded category, in the order used |
| Autopost.PostedSelection | autopost.py:104-141 | the files used by a post are its completed selection, in sending order |
| Autopost.SentPostIsArchived | autopost.py:165-167 | when both sends succeed, archiving fails only when one file was picked twice |
| Autopost.PicturesSentInSlotOrder | autopost.py:104-141 | the ten pictures are sent in slot order |
| Autopost.VideosSentInSendingOrder | autopost.py:243-259 | the videos are sent in the order auto1, meme, ero, auto2 |
| Autopost.OutOfMeansEmpty | autopost.py:121-126 | a post that runs out reports the first slot whose categories are all empty |
| Autopost.Store.constructor | autopost.py:76-167 | a store starts with the given folders and anecdote file and an empty archive |
| Autopost.Store.MoveToArchive | utils_autopost.py:107-133 | `move_file_to_archive` on the store: succeeds exactly when the file is present, then moves it; otherwise changes nothing |
| Autopost.Store.ArchiveAll | autopost.py:165-167 | the archiving loop leaves the store as the run over the used files says, and reports where it stopped |
| Autopost.Store.Recheck | autopost.py:131-138 | the recheck of a drawn file always passes |
| Autopost.Store.RecheckAll | autopost.py:243-256 | the loop that checks each drawn video again, combining every result, passes for all of them |
| Autopost.Store.FillSlots | autopost.py:107-141 | the slot loop yields the selection the slot rule gives |
| Autopost.Store.ChooseVideos | autopost.py:192-240 | the four video draws yield the selection the slot rules give |
| Autopost.Store.PostTenPictures | autopost.py:76-167 | `autopost_10_pics_callback`: outcome and new store are what the publication protocol gives, and the store stays well formed |
| Autopost.Store.PostFourVideos | autopost.py:170-285 | `autopost_4_videos_callback`, likewise |
| StatsReport.MemeDivisor | autopost.py:332-349 | the standart-meme divisor lies in 9..15; it is 9 exactly when art and single both have 3, and 15 exactly when both are empty |
| StatsReport.VideoDivisor | autopost.py:360-372 | the video-meme divisor lies in 1..4; it is 1 exactly when there is an ero and two autos, and 4 exactly when both are empty |
| StatsReport.MemeDivisorIsDayDemand | autopost.py:332-349 | the standart-meme divisor is what one forecast day takes from standart-meme |
| StatsReport.EntriesMembers | autopost.py:317-387 | an entry is present exactly for a listed key with a non-zero count, and holds that count and divisor |
| StatsReport.EntriesPositive | autopost.py:317-387 | every entry has a count and a divisor of at least 1 |
| StatsReport.MainKeysAreTheIrreplaceable | autopost.py:327-357 | the categories that enter `ratios` are exactly those with no replacement |
| StatsReport.RatioKeys | autopost.py:317-387 | a category is in `ratios` exactly when it is irreplaceable with a non-zero count, and in the replaceable table exactly when it is replaceable with a non-zero count |
| StatsReport.NoRatios | autopost.py:389-394 | `ratios` is empty exactly when ero-real, ero-anime, standart-meme, video-meme and the anecdotes are all zero |
| StatsReport.CollectRatios | autopost.py:317-372 | the statements that fill `ratios` build the specified table |
| StatsReport.CollectReplaceable | autopost.py:374-387 | those that fill `replaceable_categories` build the specified table |
| StatsReport.MinRatio | autopost.py:390 | `min(ratios, key=...)` returns the first entry whose ratio no other entry undercuts |
| StatsReport.Bottleneck | autopost.py:389-394 | the bottleneck is the first minimal ratio and its integer part, or no data and 0 when there are no ratios |
| StatsReport.BottleneckIsLeast | autopost.py:389-394 | the reported count is at most every category's integer part, and the reported category is in the table |
| StatsReport.FloorMonotone | autopost.py:391 | a smaller ratio never has a larger integer part |
| StatsReport.BelowNotAbove | autopost.py:390 | comparing ratios by cross-multiplication is transitive |
| StatsReport.PictureRatios | autopost.py:397 | the picture table keeps exactly the picture categories' entries |
| StatsReport.PicsDays | autopost.py:396-402 | the picture days are the least integer part among the picture entries, or 0 when there are none |
| StatsReport.PicsDaysCoverFullDays | autopost.py:396-402 | every count of full days the forecast allows is at most each picture entry's integer part |
| StatsReport.LaterPhases | autopost.py:424-440 | phases 2 and 3 use ero and meme within stock and anecdotes within those left, and stop only when one of them runs out |
| StatsReport.VideoPhasesAsWritten | autopost.py:405-443 | the phases as written: 0 without video-meme, within the video stock; within the anecdotes whenever phase 1 is |
| StatsReport.VideoDaysOutrunAnecdotes | autopost.py:417-418 | with no anecdotes, one ero and two autos, the report as written still promises one video day |
| StatsReport.VideoPhases | autopost.py:405-443 | the phases with anecdotes counted in phase 1: within the video stock and the anecdotes, and each phase stops only when a stock runs out |
| StatsReport.CorrectionAgrees | autopost.py:416-443 | whenever phase 1 fits the anecdotes, the corrected phases are exactly those written |
| StatsReport.LaterPhaseDays | autopost.py:424-440 | the statements of phases 2 and 3 compute the specified phases |
| StatsReport.VideoDays | autopost.py:405-443 | the video days are the total of the phases as written; whenever phase 1 fits the anecdotes they are the corrected total and within the anecdotes |
| StatsReport.StatsCommand | autopost.py:300-443 | the report holds both tables, the bottleneck, picture days equal to the least integer part among the picture entries (which bounds every feasible count of full days), and the video days as written, which are within the anecdotes whenever phase 1 is |
| Utils.CheckChat | utils.py:27-45 | the handler runs exactly when the chat is in the allowed list; otherwise the refusal notice goes to that chat |
| Utils.AllowingAChat | utils.py:25 | adding a chat to the list admits it and changes the decision for no other chat |
| Utils.MakeTime | utils.py:66 | a time is built exactly when hour, minute and second are in range; otherwise it is an out-of-range error |
| Utils.Decompose | utils.py:63-65 | `hh * 3600 + mm * 60 + ss == r`, with the minute and second below 60, and the hour below 24 exactly when `r < 86400` |
| Utils.DecomposeSecondsOf | utils.py:60-66 | decomposing a valid time's seconds gives the time back |
| Utils.RandInt | utils.py:62 | `randint(a, b)` fails exactly when `a > b`; otherwise it lies between them |
| Utils.RandIntCovers | utils.py:62 | every value between the bounds can be drawn |
| Utils.RandomTimeInRange | utils.py:47-66 | an empty range is an error; otherwise the result is a valid time whose seconds lie between those of start and end |
| Utils.RandomTimeCovers | utils.py:60-66 | every valid time in the range can be the result |
| Utils.ParseInt | utils.py:78 | a number is only read from a text that is not blank |
| Utils.ParseIntPadded | utils.py:78 | `int()` reads optional whitespace, an optional sign and ASCII digits as their value |
| Utils.ParseIntOnlyNumerals | utils.py:78 | conversely, every text `int()` reads is whitespace, an optional sign, ASCII digits and whitespace, and its value is the signed value of those digits |
| Utils.ParseTime | utils.py:68-79 | a parsed time is valid and has second 0 |
| Utils.SplitCountsSeparators | utils.py:78 | splitting on `:` gives one more piece than there are colons |
| Utils.ParseTimeNeedsOneColon | utils.py:78 | a text with any number of colons other than one is refused |
| Utils.ParseTimeOfPieces | utils.py:78-79 | `a:b` parses exactly when both parts are integers in range, to that time; two integers out of range are an out-of-range error |
| Utils.Format | utils.py:68-79 | `HH:MM` is five characters, two digits, a colon and two digits |
| Utils.FormatParseRoundTrip | utils.py:68-79 | parsing the `HH:MM` rendering of a valid hour and minute gives them back |
| Utils.ParseTimeRefusesRange | utils.py:79 | `HH:MM` with the hour 24 or more, or the minute 60 or more, is an out-of-range error |
| Coffee.RecentMembers | handlers/coffee_mishka.py:17 | the filter keeps exactly the earlier timestamps less than ten seconds old |
| Coffee.RecentOfConcat | handlers/coffee_mishka.py:17 | the filter keeps the timestamps in their old order |
| Coffee.RecentEmpty | handlers/coffee_mishka.py:17-21 | nothing is kept exactly when every timestamp is ten seconds old or older |
| Coffee.Step | handlers/coffee_mishka.py:15-29 | the special picture goes out exactly when an earlier call is less than ten seconds old; the list is then emptied, and otherwise it is exactly `[now]` |
| Coffee.NoTwoSpecialsInARow | handlers/coffee_mishka.py:21-23 | a call right after the special picture never gets it again |
| Coffee.SecondCallSoonIsSpecial | handlers/coffee_mishka.py:17-21 | a call less than ten seconds after an ordinary one gets the special picture |
| Coffee.LateCallIsOrdinary | handlers/coffee_mishka.py:17-21 | a call ten seconds or more after an ordinary one is ordinary, and the list is then just that call |
| Coffee.CoffeeCounter.constructor | handlers/coffee_mishka.py:11 | the list starts empty |
| Coffee.CoffeeCounter.RecentCalls | handlers/coffee_mishka.py:17 | the filtering loop computes the filter |
| Coffee.CoffeeCounter.Command | handlers/coffee_mishka.py:13-38 | the call is recorded first; the list afterwards is as the step says and holds at most one timestamp; the special picture skips the chat check, the coffee picture goes through it |

## Left out

- Telegram I/O: `send_message`, `send_media_group`, `send_photo`, `leave_chat`, and the message texts. Each send is a success flag, and a refusal is a `Refuse` value carrying the notice. The failure of `leave_chat` is only logged, so it is not modelled.
- Opening and reading media files, and logging, because they do not change what is published or archived.
- The filesystem itself: `os.listdir`, `exists`, `getsize`, `makedirs`, `shutil.move`. Folders are maps from category to listings, and `makedirs` has no counterpart because the archive is a sequence of moves.
- An archived file that overwrites a same-named file already in the archive. The archive is a list of moves, so an overwrite is not visible.
- Randomness: `random.choice` and `random.randint` become explicit indices, so the model says which file or time is possible, not how likely it is.
- `count_files_in_folder` and `get_available_stats`: the forecasts and `stats_command` take the counts as a `Stats` value. The model does not relate those counts to folder listings, because `count_files_in_folder` counts every regular file, `.gitkeep` included, while selection counts only valid ones.
- `predict_4videos_posts`: the import block of autopost.py (lines 19-28) names it at line 25, and `stats_command` calls it at line 305, but utils_autopost.py defines no such function. Loading autopost.py therefore raises `ImportError`, so as written neither the two callbacks nor `stats_command` can run. The model describes what each would do if that import succeeded. `StatsReport.StatsCommand` leaves out the call at line 305.
- The floating-point side of `stats_command`: ratios are compared exactly, by cross-multiplication. For counts below 2^53, float division and `int()` give the same result. The `:.1f` formatting, the HTML text, `count_wisdoms`, `count_quiz_questions` and `round(quiz_count / 8)` are not part of this model.
- `next_posts_command`, `start_autopost_command` and `stop_autopost_command`, which depend on the job queue and on the `state` module. The `state.autopost_enabled` flag is the `enabled` parameter.
- config.py, casino/casino_main.py, handlers/all.py, handlers/technical_work.py and handlers/balance_command.py, which are UI dispatch, configuration loading and chat I/O.
- `mishka_command` and `durka_command`, which only send a picture through the chat check that `Utils.CheckChat` models.
- Concurrency between callbacks and commands. The source has no locking.
- Coffee.Step: `time.time()` is a real number and the window test is exact, without float rounding.
- Utils.ParseInt: does not accept the underscores between digits or the non-ASCII digits that Python's `int()` accepts, and reads only a sign followed by ASCII digits.
- Utils.ParseTime: returns an `Err` value where the source raises `ValueError`. A wrong number of pieces and a piece that `int()` refuses both give `NotTwoIntegers`, so the model does not say which of Python's messages would be raised.
- Utils.Format: a model-side rendering of `HH:MM`, used to state the round trip. The source never formats a time this way.
- PyStr.Lower: lower-cases ASCII letters only. Every accepted extension is ASCII, and no non-ASCII character lower-cases to these ASCII letters without extra characters, so acceptance does not change.
- The two exits that report a file failing the second `is_valid_file` check (autopost.py:132-138 in `autopost_10_pics_callback`, 250-256 in `autopost_4_videos_callback`). They are dead code, because each file was drawn among the valid ones. `Autopost.RecheckPasses` and `Autopost.Store.Recheck` prove this, and the methods mark those branches as unreachable.
- The three branches of `autopost_4_videos_callback` that report too few video-meme files to replace a missing ero or auto video (autopost.py:207-212, 221-226, 235-240). They are dead code: once the mandatory video-meme is drawn, its folder has a file for every fallback. `Autopost.VideosRunOutOnlyFirst` proves this, so the model has no separate outcome for them.

## Findings

| source | as written | input that shows it | evidently intended | confidence | as-written member | corrected member |
|---|---|---|---|---|---|---|
| autopost.py:417-418 | phase 1 of `video_days` is `min(auto_pairs, video_ero, video_meme)` and ignores the anecdotes; phases 2 and 3 are skipped when `remaining_anecdotes` is not positive, but phase 1 is already counted | video-meme 1, video-ero 1, video-auto 2, anecdotes 0: one video day is reported, although every video post needs an anecdote | phase 1 is also bounded by the anecdote count, so that `video_days` never exceeds the anecdotes | not executed | StatsReport.VideoPhasesAsWritten, StatsReport.VideoDaysOutrunAnecdotes | StatsReport.VideoPhases |
