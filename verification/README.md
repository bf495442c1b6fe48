# Scoring engine and simple task loader of CMS, modelled in Dafny

This project models two pieces of the Contest Management System.

**The scoring engine of `cms/grading/ScoreType.py`.**
- `ScoreTypes.get_score_type` picks one of five score types by name:
  - `ScoreTypeSum`;
  - `ScoreTypeGroupMin`, `ScoreTypeGroupAvg` and `ScoreTypeGroupMul`;
  - `ScoreTypeRelative`.
- A constructed score type keeps:
  - a pool of submission records;
  - each user's history of submission ids, in timestamp order;
  - a table of user scores.
- It offers `add_submission`, `add_token`, `compute_all_scores` and `update_scores`.

**Three pieces of the simple contest loader, `cmscontrib/SimpleLoader.py`.**
- `rebuild_list` turns test numbers and ranges such as `"2-5"` into the names `"002"` … `"005"`.
- The `*` / `*.a` test-format detector and the numbering of the tests it finds.
- The "simple subtask" description, which splits the tests into:
  - a sample group worth nothing;
  - a main group worth the whole score.

## Modules

- `Wrappers`: `Option` and `Result`.
- `Rounding`: Python 2's `round(x)` and `round(x, 2)` over exact reals. Both round halves away from zero.
- `Strategies`: each score type's `max_scores` and `compute_score`, as pure functions of one outcome vector.
  - The `Reducer` datatype covers min, average and product.
  - The `Detail` datatype holds a group name and a PASS / FAIL / points verdict.
- `Pool`:
  - the submission `Record`;
  - the insertion-sort tail fix that keeps a history in timestamp order (`InsertByTime`);
  - the best-score rule of `update_scores` (`BestScore`, with its declarative twin `IsBest`).
- `Engine`: the `ScoreType` record and its state transitions, all pure functions.
  - The functions are `Init`, `AddSubmission`, `AddToken`, `UpdateScores` and `ComputeAll`.
  - The relative type's baseline (`compute_best_outcomes`) is also here.
  - The invariant is `Valid`.
  - `Consistent` says every score follows the best-score rule.
  - `Coherent` says every history holds only its user's ids.
- `Fresh`: the relative `add_submission` with the baseline computed after the new id joins its history. It is set against the code as written (see Findings).
- `Factory`:
  - `get_score_type` over already-parsed JSON parameters;
  - the way back from a policy to the JSON it is stored as.
- `Decimal`: the Python string primitives the loader uses. These are `strip`, `split`, `int`, `str` and `"%03d"`.
- `Rebuild`: `rebuild_list`.
- `TestFormat`: the file-name index, the `*` / `*.a` detector and the test numbering.
- `SimpleSubtasks`: the `subtasks_parameters` branch of the loader.

## Modelling choices

- Outcomes, multipliers and weights are `real`. `round(·, 2)` is exact rounding half away from zero.
- Dict iteration over users becomes an explicit list, `users`, in a fixed order (the model lists a new user last).
  - No result depends on that order: every maximum the engine takes is order-independent.
- The engine is a value. Each operation returns a new one.
- Precondition failures that the code turns into exceptions are modelled as `Result` failures:
  - `add_token` on an unknown id for the alone types;
  - `get_score_type` with the wrong number of selectors or an unknown name;
  - `int()` on a non-numeral;
  - `xrange` bounds or a length beyond a C `long`;
  - a sample index outside the test list.
- Code behaviour that looks accidental is kept as written:
  - `compute_all_scores` discards what `compute_score` returns (line 206).
  - The relative `update_scores` counts every submission, because it tests `tokened is not None` (line 532).
  - The relative `add_submission` scores against a baseline cached before the new id joins its history.
  - Nothing checks for duplicate submission ids.
  - `get_score_type` with a bare name always fails. It carries no parameters, so the constructor reads `None`.
- `ScoreTypeRelative` does not validate its floors, and `add_token` on an unknown id raises `KeyError` for the alone types (ScoreType.py:268). The model does the same.

## Model

| member | source | states |
|---|---|---|
| Rounding.RoundsToOne | cms/cms/grading/ScoreType.py:404 | `int(round(x)) == 1` exactly when 0.5 <= x < 1.5 |
| Rounding.Round2Monotone | cms/cms/grading/ScoreType.py:424-425 | rounding to two decimals preserves every order between scores |
| Strategies.PerTestcaseCeilingClosedForm | cms/cms/grading/ScoreType.py:296-301 | the loop in `max_scores` totals n·multiplier overall and (number of public testcases)·multiplier for the public part, before rounding |
| Strategies.SumMaxScoresClosedForm | cms/cms/grading/ScoreType.py:289-302 | the sum type's `max_scores` returns those two totals rounded to two decimals |
| Strategies.ZipTotalBounds | cms/cms/grading/ScoreType.py:314-317 | with outcomes in [0,1], 0 <= public sum <= sum <= number of testcases, and public sum <= public count |
| Strategies.ZipTotalOfOnes | cms/cms/grading/ScoreType.py:314-317 | a vector of ones sums to the number of testcases, and its public part to the number of public testcases |
| Strategies.SumScoreWithinMax | cms/cms/grading/ScoreType.py:289-319 | sum type, outcomes in [0,1], multiplier >= 0: 0 <= public score <= score <= max score, and public score <= max public score |
| Strategies.SumMaxIsPerfectScore | cms/cms/grading/ScoreType.py:289-319 | the sum type's maxima are exactly the scores of a fully correct submission |
| Strategies.MinOfIsMinimum | cms/cms/grading/ScoreType.py:432-433 | `min` is a lower bound of the list and is one of its elements |
| Strategies.SumOfBounds | cms/cms/grading/ScoreType.py:441-442 | a sum of n outcomes in [0,1] lies in [0, n] |
| Strategies.ProductOfBounds | cms/cms/grading/ScoreType.py:450-451 | a product of outcomes in [0,1] lies in [0,1] |
| Strategies.ReduceInUnit | cms/cms/grading/ScoreType.py:432-451 | min, average and product map a non-empty list of outcomes in [0,1] into [0,1] |
| Strategies.ReduceOfOnes | cms/cms/grading/ScoreType.py:432-451 | min, average and product of a non-empty list of ones are one |
| Strategies.Usable | cms/cms/grading/ScoreType.py:356 | the filtered case list holds exactly the cases in [0, n) |
| Strategies.Pick | cms/cms/grading/ScoreType.py:401 | the picked outcomes are the outcomes of the listed cases, in list order |
| Strategies.Details | cms/cms/grading/ScoreType.py:411-420 | one detail per scored group, in order |
| Strategies.KeptGroupsAreGroups | cms/cms/grading/ScoreType.py:392-396 | every group that is not skipped is a parameter group with a non-empty list of valid cases |
| Strategies.ScoreGroupsShape | cms/cms/grading/ScoreType.py:392-419 | `compute_score` scores exactly the groups that are not skipped, in order. Each is public iff all its valid cases are public, and is worth reducer(outcomes of its valid cases) × weight |
| Strategies.CeilingMatchesScoredGroups | cms/cms/grading/ScoreType.py:344-425 | `max_scores` skips the same groups as `compute_score`. Its totals are the weights of exactly the scored groups, and of exactly the public ones |
| Strategies.ScoredWithinWeight | cms/cms/grading/ScoreType.py:401-402 | with outcomes in [0,1] and weight >= 0, a scored group is worth between 0 and its weight |
| Strategies.SumsOrdered | cms/cms/grading/ScoreType.py:413-423 | if each group score lies in [0, weight], then 0 <= public total <= total <= total weight |
| Strategies.GroupsScoreWithinMax | cms/cms/grading/ScoreType.py:344-425 | group types, outcomes in [0,1], weights >= 0: 0 <= public score <= score <= max score, and public score <= max public score |
| Strategies.ScoredFullMarks | cms/cms/grading/ScoreType.py:401-402 | a fully correct submission gets a group's whole weight |
| Strategies.GroupsMaxIsPerfectScore | cms/cms/grading/ScoreType.py:344-425 | the group types' maxima are exactly the scores of a fully correct submission |
| Strategies.DetailVerdict | cms/cms/grading/ScoreType.py:402-411 | a weight-0 group adds 0 and reads PASS iff its value rounds to 1, otherwise FAIL; any other group shows its points |
| Strategies.GroupDetails | cms/cms/grading/ScoreType.py:403-425 | one detail per scored group, named after it. The public details are those of the public groups. Weight-0 groups add nothing and read PASS exactly when their value rounds to 1 |
| Strategies.Ratios | cms/cms/grading/ScoreType.py:529-531 | `zip` stops at the shorter list, and each ratio is outcome / baseline |
| Strategies.RelativeScoreIsRoundedRescore | cms/cms/grading/ScoreType.py:527-531 | when every testcase has a public flag, `compute_score`'s score is `update_scores`' score rounded to two decimals |
| Strategies.SumOfDominatedRatios | cms/cms/grading/ScoreType.py:567 | ratios lie in [0,1] when the baseline dominates every outcome |
| Strategies.RelativeScoreWithinMax | cms/cms/grading/ScoreType.py:538-571 | if the baseline dominates every outcome, 0 <= public score <= score <= max score, and public score <= max public score |
| Strategies.AloneScoreWithinMax | cms/cms/grading/ScoreType.py:289-425 | for the sum and group types, under the documented [0,1] assumption, 0 <= public score <= score <= the preloaded maximum |
| Pool.TailFix | cms/cms/grading/ScoreType.py:172-180 | the swap loop permutes the history and keeps it in the pool |
| Pool.InsertByTime | cms/cms/grading/ScoreType.py:164-180 | appending and fixing gives the old history plus the new id, as a multiset |
| Pool.SwapKeepsSortedExcept | cms/cms/grading/ScoreType.py:173-179 | one swap moves the single out-of-place element one step left and keeps the rest sorted |
| Pool.TailFixSorts | cms/cms/grading/ScoreType.py:172-180 | if only the element at `i` is out of place, the loop sorts the history by timestamp |
| Pool.SettledIsSorted | cms/cms/grading/ScoreType.py:173-175 | when the loop guard fails, the history is sorted |
| Pool.InsertByTimeSorted | cms/cms/grading/ScoreType.py:164-180 | `add_submission` keeps a sorted history sorted |
| Pool.TailFixShape | cms/cms/grading/ScoreType.py:172-180 | the loop moves the element at `i` to a position k and shifts `h[k..i]` one place right |
| Pool.TailFixStops | cms/cms/grading/ScoreType.py:173-175 | every element the moved id passed is strictly later, and the one it stops behind is not |
| Pool.InsertSplices | cms/cms/grading/ScoreType.py:164-180 | the insertion is a splice of the new id into the old history |
| Pool.InsertStops | cms/cms/grading/ScoreType.py:173-175 | ids after the new one are strictly later; the one before it is not later |
| Pool.InsertByTimeShape | cms/cms/grading/ScoreType.py:164-180 | the insertion splices the new id into the old history at some position: every id after it is strictly later, the id just before it is not later, and the old ids keep their order |
| Pool.RunningBestIsMaximum | cms/cms/grading/ScoreType.py:272-275 | the loop's result bounds every counted score from above and is the start value or one of them |
| Pool.BestScoreIsMaximum | cms/cms/grading/ScoreType.py:268-281 | the user's score is the maximum of 0, every tokened score and the last submission's score, and is one of them |
| Pool.IsBestUnique | cms/cms/grading/ScoreType.py:268-281 | that maximum is unique, so `IsBest` characterises the score |
| Pool.BestScoreFrame | cms/cms/grading/ScoreType.py:272-278 | the score reads only the history's scores and token flags |
| Engine.BaselineIsMaximum | cms/cms/grading/ScoreType.py:494-503 | `compute_best_outcomes` gives, per testcase, the maximum of the floor and of every user's last-submission outcome. It is `None` only when neither exists |
| Engine.BaselineFrame | cms/cms/grading/ScoreType.py:494-503 | the baseline reads outcome vectors only, never scores or flags |
| Engine.Init | cms/cms/grading/ScoreType.py:101-127 | a new score type has empty tables, a valid state and the preloaded `max_scores` |
| Engine.TablesFrame | cms/cms/grading/ScoreType.py:494-503 | changing scores or flags keeps the invariant and the baseline |
| Engine.Rescore | cms/cms/grading/ScoreType.py:527-531 | every record gets score multiplier · Σ outcome/baseline, unrounded, and nothing else in it changes |
| Engine.BestScores | cms/cms/grading/ScoreType.py:524-536 | one score per user, by the best-score rule |
| Engine.BestScoresIgnoreFlags | cms/cms/grading/ScoreType.py:532-535 | the relative score table does not depend on token flags |
| Engine.RelativeRefresh | cms/cms/grading/ScoreType.py:505-536 | the relative `update_scores` against a baseline: the pool is `Rescore` of it (multiplier·Σ outcome/baseline per record), the score table is consistent with the best-score rule counting every submission, and the cache is `None`. Nothing else changes |
| Engine.UpdateScores | cms/cms/grading/ScoreType.py:261-281 | alone types: the record's user gets the maximum of 0, their tokened scores and their last score (`IsBest`), every other user keeps their score, and the pool is untouched. Relative type: the pool is rescored against the cached (or else a fresh) baseline, the table is consistent, the cache is cleared, and without a cache the tables end settled |
| Engine.Arrive | cms/cms/grading/ScoreType.py:147-180 | the record is stored and the id is inserted by time into its user's history. A new user is listed last |
| Engine.AddAlone | cms/cms/grading/ScoreType.py:135-182 | alone types: the state stays valid, and only the new user's score changes, set by the best-score rule |
| Engine.AddRelative | cms/cms/grading/ScoreType.py:135-182 | relative type: the state stays valid, the new record keeps its fields, and histories are as after the arrival |
| Engine.AddedRecord | cms/cms/grading/ScoreType.py:147-156 | the stored record carries the arguments |
| Engine.AddSubmission | cms/cms/grading/ScoreType.py:135-182 | `add_submission` keeps the state valid and changes histories as the arrival does |
| Engine.ArriveHistory | cms/cms/grading/ScoreType.py:164-180 | the id joins its user's history once; other histories are unchanged |
| Engine.AddSubmissionHistory | cms/cms/grading/ScoreType.py:164-180 | after `add_submission`, the user's history is the old one plus the id (as a multiset), other histories are unchanged, and a new user is listed last |
| Engine.AddSubmissionRecord | cms/cms/grading/ScoreType.py:147-162 | the pool gains exactly the new id, with the given fields; alone types keep `compute_score`'s score |
| Engine.Tokened | cms/cms/grading/ScoreType.py:190-194 | only the flag of `id` is set, and an unknown id changes nothing |
| Engine.AddToken | cms/cms/grading/ScoreType.py:184-196 | fails iff the type is alone and the id is unknown. On success it sets exactly that flag and keeps histories and the invariant |
| Engine.TokenAlone | cms/cms/grading/ScoreType.py:190-196 | alone types: only the flag of `id` is newly set |
| Engine.TokenRelative | cms/cms/grading/ScoreType.py:190-196 | relative type: only the flag of `id` is newly set |
| Engine.ComputeAll | cms/cms/grading/ScoreType.py:198-209 | `compute_all_scores` changes only records' scores and the score table; alone types leave the pool unchanged |
| Engine.InsertByTimeElements | cms/cms/grading/ScoreType.py:164-180 | every element of the new history is old or the new id |
| Engine.AddAloneConsistent | cms/cms/grading/ScoreType.py:135-182 | alone types: adding a fresh id keeps every score equal to the best-score rule |
| Engine.AddAloneCoherent | cms/cms/grading/ScoreType.py:164-168 | adding a fresh id keeps every history made of its own user's ids |
| Engine.AddSubmissionConsistent | cms/cms/grading/ScoreType.py:135-182 | alone types: `add_submission` under a fresh id keeps the score table consistent and the histories coherent |
| Engine.RefreshScoresCoherent | cms/cms/grading/ScoreType.py:203-209 | each turn of the alone loop refreshes its own user by the best-score rule; unlisted users keep their scores |
| Engine.ComputeAllAlone | cms/cms/grading/ScoreType.py:198-209 | alone types: `compute_all_scores` changes only scores, makes them consistent, and changes nothing on consistent tables |
| Engine.RefreshedTables | cms/cms/grading/ScoreType.py:203-209 | the alone loop over every user rebuilds the whole best-score table |
| Engine.RefreshSettles | cms/cms/grading/ScoreType.py:505-536 | refreshing against the current baseline settles the tables |
| Engine.SettledIsFixed | cms/cms/grading/ScoreType.py:505-536 | on settled tables a refresh changes nothing |
| Engine.RelativeRecomputeRefreshes | cms/cms/grading/ScoreType.py:203-209 | a turn of the relative outer loop is one refresh against the current baseline |
| Engine.RelativeComputeOverRefreshes | cms/cms/grading/ScoreType.py:203-209 | a non-empty relative outer loop equals a single refresh |
| Engine.ComputeAllRelative | cms/cms/grading/ScoreType.py:198-209 | relative type: `compute_all_scores` is a refresh against the current baseline and settles; on settled tables it changes nothing |
| Engine.AddTokenAloneUnfold | cms/cms/grading/ScoreType.py:190-196 | alone types: a token sets the flag and rescores the owner by the best-score rule, and nothing else |
| Engine.AddTokenAlone | cms/cms/grading/ScoreType.py:184-196 | alone types: a token on a known id keeps consistency and coherence, and is a no-op if the flag was set |
| Engine.OtherHistoryUnflagged | cms/cms/grading/ScoreType.py:268-281 | flagging `id` leaves every other user's best score unchanged |
| Engine.AddTokenRelativeUnfold | cms/cms/grading/ScoreType.py:184-196 | relative type: a token sets the flag if the id is known, then refreshes against a fresh baseline |
| Engine.AddTokenIdempotent | cms/cms/grading/ScoreType.py:184-196 | playing the same token twice gives the state of playing it once, for every score type |
| Engine.RelativeTokenIrrelevant | cms/cms/grading/ScoreType.py:532-533 | as written, a token does not change any relative score |
| Engine.RefreshIgnoresFlags | cms/cms/grading/ScoreType.py:527-536 | the relative refresh gives the same score table whatever the flags |
| Fresh.Joined | cms/cms/grading/ScoreType.py:147-168 | corrected order: the record is stored and its id has joined the history before scoring |
| Fresh.FreshRecord | cms/cms/grading/ScoreType.py:553-571 | corrected: the record is scored against the baseline that includes its own outcomes |
| Fresh.AddSubmissionFresh | cms/cms/grading/ScoreType.py:135-182 | the corrected relative `add_submission` keeps the state valid and changes histories as the arrival does |
| Fresh.AddSubmissionFreshSettles | cms/cms/grading/ScoreType.py:505-536 | the corrected addition ends settled |
| Fresh.AddSubmissionFreshRecord | cms/cms/grading/ScoreType.py:553-571 | corrected: the stored record carries the arguments, and its public score agrees with the final baseline |
| Fresh.AddSubmissionFreshIsFixed | cms/cms/grading/ScoreType.py:198-209 | after the corrected addition, `compute_all_scores` changes nothing |
| Fresh.AddRelativeRefreshes | cms/cms/grading/ScoreType.py:514-520 | as written, the relative tail of `add_submission` refreshes against the cached baseline |
| Fresh.StaleTables | cms/cms/grading/ScoreType.py:157-182 | as written, on one relative testcase with floor 0.5, a first submission with outcome 1.0 scores 2.0 |
| Fresh.StaleBaselineOvershoots | cms/cms/grading/ScoreType.py:157-182 | as written, that score of 2.0 exceeds the maximum of 1.0, and the tables are not settled |
| Fresh.FreshBaselineFits | cms/cms/grading/ScoreType.py:553-571 | corrected, the same submission scores exactly the maximum of 1.0 |
| Factory.Construct | cms/cms/grading/ScoreType.py:82-93 | each name builds its own policy with the given public flags. The sum succeeds iff the parameter is a number, which becomes the multiplier. The groups succeed iff every entry decodes as a group, or the parameter is the empty string (no groups), with the reducer the name selects. The relative type succeeds iff the first two entries decode as the multiplier and the floors. Every failure is `BadParameters` |
| Factory.IntegerGroupName | cms/cms/grading/ScoreType.py:393-411 | a group named by an integer constructs, the name kept as the decimal text `%s` gives it |
| Factory.GetScoreType | cms/cms/grading/ScoreType.py:53-93 | `ValueError` iff the number of selectors is not exactly one. With one task selector (a submission stands for its task) and a registered name, it succeeds iff the constructor accepts the task's parameters and public flags, and then returns the fresh score type of exactly that constructed policy. Success gives a valid, empty score type, and never comes from a bare name |
| Factory.ConstructRoundTrip | cms/cms/grading/ScoreType.py:82-93 | the parameters a policy is stored as construct that policy again |
| Factory.GetScoreTypeRoundTrip | cms/cms/grading/ScoreType.py:72-93 | a task, or a submission of it, storing a policy gives back that policy's fresh score type |
| Factory.SelectorOutcomes | cms/cms/grading/ScoreType.py:67-93 | a submission acts as its task. A bare name always fails. An unknown name raises `KeyError` |
| Decimal.StripCharacterised | cmscontrib/SimpleLoader.py:59 | `strip` keeps the infix between the whitespace cut from both ends, and its ends are not whitespace |
| Decimal.StripIdempotent | cmscontrib/SimpleLoader.py:59 | stripping twice is stripping once |
| Decimal.Split | cmscontrib/SimpleLoader.py:59 | `split` yields at least one piece, and no piece contains the separator |
| Decimal.JoinSplit | cmscontrib/SimpleLoader.py:59 | joining the pieces of a split gives back the text |
| Decimal.SplitJoin | cmscontrib/SimpleLoader.py:59 | splitting a join gives back the pieces, provided none contains the separator |
| Decimal.ShowNat | cmscontrib/SimpleLoader.py:59 | `str(n)` is digits, with no leading zero unless it is `"0"` |
| Decimal.ParseShowInt | cmscontrib/SimpleLoader.py:59-61 | `int(str(n)) == n` for every integer |
| Decimal.ParsePad3 | cmscontrib/SimpleLoader.py:61 | `int("%03d" % n) == n` for every integer |
| Decimal.ParseDigits | cmscontrib/SimpleLoader.py:61 | `int` reads a digit run as its value |
| Decimal.ParseNegative | cmscontrib/SimpleLoader.py:61 | `int` reads a minus sign and a digit run as the negated value |
| Decimal.ParseSpacedSign | cmscontrib/SimpleLoader.py:349-351 | `int` skips whitespace between the sign and the digits, so `int("- 5")` is -5 and `int("+ 2")` is 2 |
| Rebuild.PadRange | cmscontrib/SimpleLoader.py:63-64 | once `xrange(a, b + 1)` is built, the loop appends b−a+1 names, or none when a > b, the k-th being `"%03d" % (a+k)`. Building it can overflow, which `Rebuild.PiecesRange` states |
| Rebuild.RebuildList | cmscontrib/SimpleLoader.py:54-65 | `rebuild_list(None)` is the empty list. The only failures are `ValueError` from `int` and `OverflowError` from `xrange` |
| Rebuild.ConcatFlattens | cmscontrib/SimpleLoader.py:58-64 | the loop succeeds iff every entry expands, and then returns the concatenation |
| Rebuild.ConcatAppend | cmscontrib/SimpleLoader.py:58-64 | the loop over a concatenation succeeds iff it succeeds on both parts, giving the concatenated results |
| Rebuild.RebuildIsConcatenation | cmscontrib/SimpleLoader.py:54-65 | `rebuild_list` succeeds iff every entry expands, and returns their names concatenated in input order |
| Rebuild.RebuildAppend | cmscontrib/SimpleLoader.py:54-65 | `rebuild_list(xs + ys)` is `rebuild_list(xs) + rebuild_list(ys)`, failing iff either fails |
| Rebuild.SplitNoDash | cmscontrib/SimpleLoader.py:59-61 | text without a dash stays one piece, read as `int` reads the text |
| Rebuild.SplitDigitRuns | cmscontrib/SimpleLoader.py:59 | `"x-y"` of two digit runs splits into the two runs |
| Rebuild.PiecesRange | cmscontrib/SimpleLoader.py:62-64 | two numeral pieces a and b give the range a..b when a, b + 1 and the length b + 1 − a fit a C `long`, and `OverflowError` otherwise |
| Rebuild.ExpandSingle | cmscontrib/SimpleLoader.py:59-61 | an entry without a dash is exactly `["%03d" % int(token)]`, or `ValueError` |
| Rebuild.ExpandRange | cmscontrib/SimpleLoader.py:59-64 | `"a-b"` expands to a, a+1, …, b, and to nothing when a > b. It raises `OverflowError` exactly when a or b + 1 exceeds a C `long` |
| Rebuild.SplitNegative | cmscontrib/SimpleLoader.py:59 | a negative number's text splits at its sign into an empty piece and the magnitude |
| Rebuild.ExpandNumber | cmscontrib/SimpleLoader.py:59-61 | a non-negative number is its own name, and a negative one raises `ValueError` |
| Rebuild.RebuildNumbers | cmscontrib/SimpleLoader.py:54-65 | non-negative numbers give their names, one each in order, and each reads back as its number |
| Rebuild.NumbersOnlyValueError | cmscontrib/SimpleLoader.py:59-61 | a list of numbers can fail only with `ValueError`: a negative number's text splits at its sign into an empty first piece, which `int` rejects before any `xrange` is built |
| Rebuild.RebuildNegative | cmscontrib/SimpleLoader.py:54-65 | a list holding a negative number raises `ValueError` |
| Rebuild.PadRangeReadsBack | cmscontrib/SimpleLoader.py:63-64 | the k-th name of a range reads back as a+k |
| TestFormat.Base | cmscontrib/SimpleLoader.py:262-263 | the file name holds no slash, is no longer than the path, and ends with the path's last character |
| TestFormat.BaseOfJoin | cmscontrib/SimpleLoader.py:256-263 | a path found in a directory has the found name as its file name |
| TestFormat.Index | cmscontrib/SimpleLoader.py:262-263 | every path's file name is a key, and each key maps to a path with that file name |
| TestFormat.IndexLastWins | cmscontrib/SimpleLoader.py:262-263 | a path with no later namesake stays indexed under its name |
| TestFormat.SortDistinct | cmscontrib/SimpleLoader.py:280 | `sorted` of the keys is strictly increasing and holds exactly the keys |
| TestFormat.SortedUnique | cmscontrib/SimpleLoader.py:280 | two strictly sorted lists with the same elements are equal, so the test order is determined |
| TestFormat.DetectLoopAll | cmscontrib/SimpleLoader.py:269-276 | the loop leaves `detected` set iff every visited name is paired |
| TestFormat.DetectLoopIff | cmscontrib/SimpleLoader.py:269-276 | in any visiting order, the format is detected iff each `.a` name has its stem and every other name has its `.a` partner |
| TestFormat.Inputs | cmscontrib/SimpleLoader.py:281 | the kept names are exactly those not ending in `.a` |
| TestFormat.EnumerateTests | cmscontrib/SimpleLoader.py:279-286 | test i is numbered idx+i, is private, and takes the paths of the i-th name and its `.a` partner |
| TestFormat.SortedNames | cmscontrib/SimpleLoader.py:280 | the key order is strictly increasing and covers every key |
| TestFormat.TestNamesSpec | cmscontrib/SimpleLoader.py:280-281 | the test names are exactly the non-`.a` names, each once, in increasing order |
| TestFormat.PairTestsDetects | cmscontrib/SimpleLoader.py:267-277 | the format is detected iff every name has its partner |
| TestFormat.PairTestsNumbers | cmscontrib/SimpleLoader.py:277-286 | when detected, test i has index i, is private, and uses the i-th test name's input and output paths |
| TestFormat.PairTestsDetected | cmscontrib/SimpleLoader.py:277-286 | when detected, the tests are the enumeration of the sorted names from 0 |
| TestFormat.PairTestsFiles | cmscontrib/SimpleLoader.py:282-284 | each test's input file is named after the test, and its output file adds `.a` |
| TestFormat.EmptyListing | cmscontrib/SimpleLoader.py:267-287 | an empty listing is detected and gives no tests |
| SimpleSubtasks.ParseSamples | cmscontrib/SimpleLoader.py:349-351 | one 0-based number per piece, or `ValueError` |
| SimpleSubtasks.Samples | cmscontrib/SimpleLoader.py:349-351 | corrected: blank text means no samples; other text reads as written |
| SimpleSubtasks.Position | cmscontrib/SimpleLoader.py:352-353 | a Python index, negative ones counting from the end, lands inside the list |
| SimpleSubtasks.MarkAll | cmscontrib/SimpleLoader.py:346-348 | with `public_tests` every test becomes public, and nothing else changes |
| SimpleSubtasks.MarkSamplesSpec | cmscontrib/SimpleLoader.py:352-353 | marking succeeds iff every sample indexes the list. A test then becomes public iff it was or a sample points at it |
| SimpleSubtasks.MainIndices | cmscontrib/SimpleLoader.py:366-371 | the main indices are exactly those in [0, n) that are not samples, in increasing order |
| SimpleSubtasks.Rebuilt | cmscontrib/SimpleLoader.py:372-373 | rebuilding non-negative indices always succeeds and gives their names |
| SimpleSubtasks.MissingSamplesRaise | cmscontrib/SimpleLoader.py:349-351 | as written, a missing `sample_tests` raises `ValueError` whatever the tests |
| SimpleSubtasks.MissingSamplesAreNone | cmscontrib/SimpleLoader.py:349-351 | corrected, a missing `sample_tests` gives an empty sample group, and every test goes to the main group |
| SimpleSubtasks.CorrectionOnlyBlank | cmscontrib/SimpleLoader.py:349-351 | the correction changes nothing when the sample text is not blank |
| SimpleSubtasks.SplitNumerals | cmscontrib/SimpleLoader.py:351 | comma-joined numerals survive `strip` and split back into the numerals |
| SimpleSubtasks.SamplesRoundTrip | cmscontrib/SimpleLoader.py:349-351 | sample numbers written `1,2,...` read back 0-based |
| SimpleSubtasks.ParseNumerals | cmscontrib/SimpleLoader.py:349-351 | numerals of non-negative numbers read as the numbers minus one |
| SimpleSubtasks.RebuildSamples | cmscontrib/SimpleLoader.py:354-357 | the sample group can be built iff no sample is negative, and it lists their names |
| SimpleSubtasks.DescribeOutcome | cmscontrib/SimpleLoader.py:340-373 | succeeds iff every sample indexes the list and none is negative. `IndexError` comes first, then `ValueError` |
| SimpleSubtasks.DescribeGroups | cmscontrib/SimpleLoader.py:354-373 | the sample group is worth 0 and lists the samples. The main group is worth `total_value` and lists every other test, as public or private according to `public_tests` |
| SimpleSubtasks.DescribeMarks | cmscontrib/SimpleLoader.py:346-353 | a test ends public iff it was, `public_tests` is set, or it is a sample |
| SimpleSubtasks.DescribePartition | cmscontrib/SimpleLoader.py:366-373 | every test index lands in exactly one list: samples, main public or main private |

## Left out

- Logging: every `logger` call is a no-op.
- Floating point: outcomes are exact reals, and `round` is exact.
- `"%lg"` rendering of group points: a detail carries the number itself.
- `json.loads` of the task's parameters: parameters arrive as a parsed `Json` value, which has no object case.
- Factory.Construct: rejects a JSON object, a group written as a three-character string, and cases that are not integers. The group types iterate an object's keys and a string's characters, and Python 2 orders every number below every string, so `0 <= x < num_total_cases` drops string cases. The source then builds a group type that skips those groups and scores them 0. The empty string, which iterates as no groups, is modelled.
- The `task.testcases` lookup: the public flags arrive as a list.
- Python 2 truthiness and mixed-type arithmetic in the parameters, such as a boolean used as a number or a string weight: such values fail construction.
- Factory.GroupOf: group names must be strings, integers, booleans or `null`. A real or list name, which `%s` would render with `str` of a float or `repr` of a list, fails construction.
- Errors the constructor would raise lazily, later, on malformed parameters: they surface at construction.
- Factory.Construct: reports every malformed parameter shape as one error, `BadParameters`, rather than the specific Python exception.
- Engine.AddSubmission: requires a valid state and outcome vectors the score type can index. The code raises `IndexError` on a group case beyond the vector, or on a relative vector longer than the floors; those paths are not modelled.
- Engine.AddSubmission: the relative type requires a positive baseline wherever it divides. The code would raise `ZeroDivisionError` or `TypeError` (for a `None` floor); that path is not modelled.
- Engine.AddToken: for the relative type, requires a positive current baseline, for the same reason.
- Engine.UpdateScores: requires the same positive baseline, and for the alone types an id present in the pool (the `KeyError` appears in `Engine.AddToken`).
- Engine.ComputeAll: requires a positive baseline for the relative type.
- Duplicate submission ids: they are allowed, as in the code. The consistency lemmas assume a fresh id.
- The `*.in*` / `*.out*` and `*input*` / `*output*` test formats, and the `sys.exit` when no format is recognised: only the `*` / `*.a` format is part of this model.
- The recursive directory walk: the list of paths it finds is an input.
- The full `subtasks` branch of the loader, the YAML and file I/O, and the contest, task and dataset construction.
- `float(total_value)` in the simple subtask description: the total arrives as a real. `json.dumps` of the groups is not modelled, because the groups are returned as data.
- Non-string `sample_tests` values: the sample text is a string.
- Rebuild.PadRange: assumes a 64-bit Unix build, where a C `long` spans [-2^63, 2^63 - 1]. `Rebuild.XrangeFits` encodes that width. Memory exhaustion on a huge range is not modelled.
- `str()` of non-ASCII text, and `int()` forms beyond whitespace, a sign and decimal digits (other bases, `long` suffixes, non-ASCII decimal digits).
- Decimal.IsSpace: covers ASCII whitespace only. The YAML values are `unicode`, whose `strip()` also removes `\x1c`-`\x1f`, `\x85`, `\xa0` and the other Unicode spaces.
- TestFormat.Base: models `os.path.split(...)[-1]` for `/`-separated paths only.

## Findings

| source | as written | input that shows it | evidently intended | confidence | as-written member | corrected member |
|---|---|---|---|---|---|---|
| cms/cms/grading/ScoreType.py:157-168 | The relative `compute_score` computes and caches the baseline before the new id joins its user's history (line 560). `update_scores` then reuses that cache, so the new submission is measured against a baseline that leaves out its own outcomes. | One relative testcase: multiplier 1.0, floor 0.5, no submissions. User "a" submits outcome 1.0. The score is 2.0, above the maximum of 1.0, and a later `compute_all_scores` changes it. | The baseline includes the new submission, as the class docstring says ("all others submissions (also in the future) that are going to contribute"). The score is then 1.0, and the tables are settled. | not executed | Fresh.StaleBaselineOvershoots | Fresh.AddSubmissionFreshSettles |
| cmscontrib/SimpleLoader.py:349-351 | The default for a missing `sample_tests` is `""`. `"".strip().split(",")` is `[""]`, and `int("")` raises `ValueError`. | A `subtasks_parameters` entry without `sample_tests`, with any tests. | A missing or blank `sample_tests` means no samples. Every test then goes to the main group. | not executed | SimpleSubtasks.MissingSamplesRaise | SimpleSubtasks.MissingSamplesAreNone |
