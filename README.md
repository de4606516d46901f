# Convex hull visualiser: Jarvis March and Kirkpatrick–Seidel

This project models the computing core of a web page that animates two convex-hull algorithms
on points in the plane. The page draws nothing while an algorithm runs. Each algorithm computes
its hull and appends tagged records ("actions") to an array, and a renderer replays that array
later. The model covers both algorithms together with the action arrays they fill:

- **Jarvis March** (gift wrapping). `Jarvis` starts from the lowest point. It puts a fake
  previous origin just to the right of it and repeatedly calls `findNextOrigin`, which picks the
  point of smallest turning angle and, on equal angle, the nearer one. The march stops when the
  candidate is already on the hull. The actions are "ccb"/"ccg" (circle a point blue or green)
  and "asl"/"adl"/"rsl"/"rdl" (add or remove a solid or a dashed line).
- **Kirkpatrick–Seidel** ("marriage before conquest"). `convexHull` runs `getUpperHull` on the
  points and on their reflection through the origin (`flipped`).
  - `getUpperHull` picks the two extreme points and drops every point below the chord between
    them. It then calls `connect`.
  - `connect` splits the points at the median x. It finds the bridge across that line with
    `getBridge`, then recurses on each side.
  - `getBridge` pairs the points, takes a median slope and sorts the pairs into three slope
    buckets. It then finds the highest line of that slope and either returns its ends or prunes
    the points and recurses.
  - Every step appends records to `actions`. When the pass runs on reflected points, the
    payloads are reflected back.

`doc_script.js` is a commented copy of `script.js` that differs in two places. It selects the
median slope with the point `quickselect`, whose comparator reads `undefined` fields of
numbers and so leaves the slopes in their original order. It also does not push the final
"radl" in `convexHull`. The model follows `script.js` and takes `Edition = Script | DocScript`
wherever the two copies differ.

Modules:

| module | contents |
|---|---|
| `Geometry` | points, reflection, the lexicographic order, intercepts, `integerDivision` |
| `OrderedSet` | JavaScript `Set` as an insertion-ordered sequence without repetition |
| `Outcomes` | `Option`, and `Result` carrying the exception a step throws |
| `Seqs` | sequence bookkeeping lemmas |
| `Sorting` | the results of the library sorts, `quickselectSlopes`, `quickselect` |
| `KpsTrace` | the Kirkpatrick–Seidel action records, and `Edition` |
| `JarvisMarch` | the whole Jarvis March pipeline: specification functions, loops, trace lemmas |
| `Bridge` | `getBridge` as functions |
| `BridgeLoops` | `getBridge` loop by loop, proved equal to `Bridge` |
| `UpperHull` | `connect`, `getUpperHull`, `convexHull` as functions |
| `HullLoops` | `connect`, `getUpperHull`, `convexHull` loop by loop, proved equal to `UpperHull` |

Each loop of the source is a `method` with its invariants, proved equal to a specification
function. Each action array is threaded through: a method takes the array and returns it with
the new records appended (`actions' == actions + trace`). The properties the source promises
are proved about those functions.

## Model

| member | source | states |
|---|---|---|
| Geometry.FlipAll | script.js:310-316 | `flipped` reflects every point through the origin (`flipval`), keeping the length and the order |
| Geometry.FlipAllInvolution | script.js:310-316 | reflecting every point twice gives back the original sequence |
| Geometry.FlipAllMembership | script.js:310-316 | a point is in `flipped(ps)` exactly when its reflection is in `ps` |
| Geometry.IntegerDivision | script.js:325-327 | the result is the floor of the quotient: `q*d <= n < q*d + d` for a positive divisor, mirrored for a negative one |
| OrderedSet.PopFromSet | script.js:329-334 | returns the element inserted first; the set left is the rest, in order, still without repetition and without it |
| OrderedSet.AddAllMembers | script.js:577-587 | after adding every element of `xs` to a set, its elements are those it had and those of `xs` |
| OrderedSet.Dedup | script.js:367 | `new Set(xs)` holds exactly the elements of `xs`, each once, and is no longer than `xs` |
| OrderedSet.DedupDistinct | script.js:367 | on a sequence without repetition, `new Set(xs)` keeps it unchanged and in order |
| Sorting.SortLex | script.js:342-349 | the (x, then y) sort is a permutation of its input and is sorted |
| Sorting.SortLexDistinct | script.js:342-349 | sorting keeps points free of repetition |
| Sorting.SortReals | script.js:336-339 | the numeric slope sort is a permutation of its input and is ascending |
| Sorting.SortByY | script.js:694-702 | the sort by y is a permutation of its input and is ascending in y |
| Sorting.QuickselectSlopesIsOrderStatistic | script.js:336-340 | `quickselectSlopes(slopes, k)` is one of the slopes; at most `k` slopes lie below it and more than `k` lie at or below it (it is the `k`-th smallest) |
| Sorting.Quickselect | script.js:342-350 | the caller's array is left sorted in (x, then y) order, a permutation of what it held, and the result is its element `k` |
| JarvisMarch.ShallowEqual | script.js:56-68 | two points are shallow-equal exactly when both coordinates agree |
| JarvisMarch.Step | script.js:86-116 | one iteration keeps "no best point yet" tied to `best_angle == 360` and to no action pushed, and throws (after which nothing changes) only while there is no best point |
| JarvisMarch.Scan | script.js:81-119 | the loop of `findNextOrigin` over the points: without a best point it has pushed nothing and still holds `best_angle == 360`, and it has thrown only while it has no best point |
| JarvisMarch.ScanThrows | script.js:86-107 | `findNextOrigin` throws exactly when the first point that is neither `o` nor `prev_o` makes an angle of 360: the tie branch then reads `best_point.x` while `best_point` is null |
| JarvisMarch.ScanNone | script.js:81-119 | when it does not throw, `findNextOrigin` returns null exactly when every point is a copy of `o` or of `prev_o` |
| JarvisMarch.ScanBest | script.js:86-118 | the point returned is an eligible input point carrying the recorded angle; no eligible point beats it (smaller angle, or equal angle and strictly nearer to `o`); it beats every eligible point listed before it, so the first of equals is kept |
| JarvisMarch.ScanFinds | script.js:81-119 | on three different points `findNextOrigin` returns a point unless it throws |
| JarvisMarch.NextOrigin | script.js:81-119 | the candidate of a round is an eligible input point, the scan's best, unless the scan throws (the 360 exception) or returns null (then `shallowEqualityCheck` throws on it at script.js:141); on three different points only the 360 exception remains |
| JarvisMarch.FindNextOrigin | script.js:81-119 | the loop returns the best point of the scan, or throws exactly when the scan does, and pushes exactly the scan's actions |
| JarvisMarch.ScanLines | script.js:86-116 | replaying one call's actions through the line bookkeeping of `performActions`: no "rsl" comes before a solid line exists, no dashed line is left, and there is exactly one new solid line when a point is returned (none otherwise) |
| JarvisMarch.Replay | script.js:268-299 | the lines `performActions` keeps while it replays the actions, as two counts: a stack of solid lines and a pile of dashed ones; `None` when an "rsl" pops an empty stack, where the renderer throws |
| JarvisMarch.Effect | script.js:278-299 | "asl" and "adl" add a solid or a dashed line, "rsl" removes the newest solid line, "rdl" removes every dashed line, circles leave the lines alone |
| JarvisMarch.ScanMarksNothing | script.js:81-119 | `findNextOrigin` pushes no "ccb" or "ccg" record |
| JarvisMarch.LowestIsFirstMinimum | script.js:124-129 | the start origin is the first point of least y (the strict `>` keeps the earliest), or the `MAX_SAFE_INTEGER` sentinel when no point lies below it |
| JarvisMarch.Lowest | script.js:124-129 | the origin the first loop settles on, as a value (its properties are `LowestIsFirstMinimum`) |
| JarvisMarch.FindLowest | script.js:124-129 | the first loop returns that start origin |
| JarvisMarch.UnvisitedShrinks | script.js:141-154 | pushing a candidate not yet on the hull shrinks the set of unvisited input points, which bounds the loop |
| JarvisMarch.Wrap | script.js:137-156 | every point the loop pushes is an input point not yet on the hull and the closing candidate is on the hull; a round that throws ends the loop with its exception, which is the 360 one on three different points |
| JarvisMarch.WrapDistinct | script.js:137-156 | a loop that completes never pushes a point that is already on the hull, so the hull has no repetition |
| JarvisMarch.WrapChain | script.js:137-156 | in a loop that completes, each pushed point, and the closing candidate, is what `findNextOrigin` returns from the two hull points before it |
| JarvisMarch.RoundEvents | script.js:137-148 | the actions of one round, as a value: those of `findNextOrigin`, "ccg" of the origin, then "ccg" or "ccb" of the candidate (their effect is `RoundEffects`) |
| JarvisMarch.Trace | script.js:121-158 | the actions of a whole run, as a value: "ccb" of the origin, then the rounds in order (their effect is `TraceLines`, `TraceGreenMarks`, `TraceBlueMarks`) |
| JarvisMarch.JarvisMarch | script.js:121-158 | a run that completes has a hull that starts at the start origin, has at least two points and no repetition, lists input points after the first, and is stopped by a candidate on the hull; otherwise it ends with the exception of the round that threw, the 360 one on three different points |
| JarvisMarch.MarchFollowsNextOrigin | script.js:131-156 | in a run that completes, the second hull point comes from the origin and the fake previous origin (x + 0.001), each later point and the closing candidate come from the two points before it, and so every round finds a candidate |
| JarvisMarch.MarchNeedsThree | script.js:121-158 | a run completes only on three different points: on fewer, some round's candidate is null and `Jarvis` throws |
| JarvisMarch.RoundEffects | script.js:138-148 | a round whose scan finds a candidate leaves one more solid line and no dashed line; it marks its origin green, then the candidate green if it closes the hull and blue otherwise |
| JarvisMarch.TraceLines | script.js:121-158 | replaying a run whose rounds all find a candidate (every run that completes) never removes a missing solid line and leaves exactly one solid line per hull edge and no dashed line |
| JarvisMarch.TraceGreenMarks | script.js:121-158 | the green marks of a run whose rounds all find a candidate are the hull in order, then the candidate that closed it |
| JarvisMarch.TraceBlueMarks | script.js:121-158 | the blue marks of such a run are the hull in order, starting with the "ccb" of the origin |
| JarvisMarch.Jarvis | script.js:121-158 | when the run completes the loop returns the hull of `JarvisMarch`, `hullpoints` receives exactly the same points and `action` the whole trace, appended; otherwise it throws the exception `JarvisMarch` names; either way the two arrays only grow |
| Bridge.MakePair | script.js:371-379 | a pair holds the two points popped, the (x, then y) smaller one first |
| Bridge.Pairing | script.js:370-388 | the pairing loop makes `n / 2` pairs, each of two points of the set, and every point of a pair comes from the set |
| Bridge.PairingAt | script.js:370-388 | the `i`-th pair is made of the points popped `2i`-th and `(2i+1)`-th, in insertion order |
| Bridge.MakePairSorts | script.js:371-379 | the two-point sort of a pair agrees with `MakePair`: the (x, then y) smaller point first |
| Bridge.Leftover | script.js:390-391 | an odd-sized set leaves its last point as the first candidate |
| Bridge.SplitVerticalSorts | script.js:393-419 | every vertical pair hands its higher point (`pair[0]` only when strictly higher) to the candidates, and every other pair stays, in order |
| Bridge.Prepare | script.js:366-419 | the pairing and the splice: the candidates and the kept pairs come from the points, the candidates have no repetition, every kept pair is non-vertical, and together they use at most the points given |
| Bridge.Slopes | script.js:414-418 | `slopes[i]` is the slope of the `i`-th pair left after the splice |
| Bridge.MedianIndex | script.js:422 | `med_index` is `(n - 1) / 2` for `n > 0` and `-1` when there is no slope |
| Bridge.MedianSlope | script.js:422-423 | in `script.js` the median slope is a lower median of the slopes; in `doc_script.js` (line 557) it is `slopes[med_index]`, unsorted |
| Bridge.ClassifyPartitions | script.js:424-449 | `small`, `equal` and `large` together hold each remaining pair exactly once |
| Bridge.ClassifyBySlope | script.js:424-449 | a pair goes to `small`, `equal` or `large` as its slope is below, at or above the median slope |
| Bridge.ClassifyEqualNonEmpty | script.js:422-449 | the pair whose slope is the median lands in `equal`, which is therefore not empty |
| Bridge.FirstMax | script.js:456-462 | the scan keeps a point of greatest intercept `y - med_slope * x`, the first one listed: every point before it has a strictly smaller intercept |
| Bridge.OnLine | script.js:471-477 | `max_set` gathers exactly the points whose intercept equals the maximum |
| Bridge.LexMin | script.js:481-484 | `left` is the (x, then y) smallest point of `max_set` |
| Bridge.LexMax | script.js:486-489 | `right` is the (x, then y) largest point of `max_set` |
| Bridge.RoundOf | script.js:366-496 | a round either throws for lack of a median slope or yields input points `left <= right` and buckets whose pairs come from the input, with `equal` not empty |
| Bridge.RoundEvents | script.js:366-496 | the records of one round up to "hrc", as a value: the pair lines, the "hidp" of the splice, the bucket records, "dsup" and "hrc" (which carries `left` and `right` unreflected) |
| Bridge.SupportingLine | script.js:456-489 | `left` and `right` lie on the highest line of the median slope and are the (x, then y) extremes of the points on it |
| Bridge.KeepHi | script.js:507-518 | the loop over `[pt, point]` keeps only `pair[1]` points and keeps the candidates free of repetition |
| Bridge.KeepLo | script.js:525-536 | the loop over `[point, pt]` keeps only `pair[0]` points and keeps the candidates free of repetition |
| Bridge.KeepBoth | script.js:519-523 | the nested loop adds only points of the pairs, without repetition |
| Bridge.Prune | script.js:501-541 | the pruning branches keep the candidates free of repetition |
| Bridge.PruneBranches | script.js:501-541 | the two pruning branches never both run, and one runs whenever the supporting line misses the median |
| Bridge.PruneWithin | script.js:507-541 | pruning adds only candidates and points of the bucketed pairs |
| Bridge.CandidatesShrink | script.js:507-550 | the candidates passed to the recursive call are input points without repetition, and strictly fewer than the input |
| Bridge.PairingApart | script.js:370-388 | pairing the points of a set gives pairs of two different points, and no two pairs share a point |
| Bridge.PairingMissesLast | script.js:370-391 | the point left over by an odd-sized set belongs to no pair |
| Bridge.SplitKeptDistinct | script.js:393-419 | the splice keeps different pairs different |
| Bridge.OtherSource | script.js:366-419 | besides a kept pair, the round starts from a candidate that is not a point of that pair, or from another kept pair that shares no point with it |
| Bridge.KeepHiHolds | script.js:507-518 | the loop over `[pt, point]` keeps every candidate it starts from and adds `pair[1]` of every pair of `large` and `equal` |
| Bridge.KeepLoHolds | script.js:525-536 | the loop over `[point, pt]` keeps every candidate it starts from and adds `pair[0]` of every pair of `small` and `equal` |
| Bridge.KeepBothHolds | script.js:519-523 | the nested loop keeps every candidate it starts from and adds both points of every pair |
| Bridge.PruneHiKeepsTwo | script.js:507-523 | when the line lies left of the median, the pruned candidates hold at least two points |
| Bridge.PruneLoKeepsTwo | script.js:525-541 | when the line lies right of the median, the pruned candidates hold at least two points |
| Bridge.PruneKeepsTwo | script.js:501-541 | whichever pruning branch runs, the pruned candidates hold at least two points |
| Bridge.CandidatesStayTwo | script.js:501-550 | on three or more different points, when the supporting line misses the median, the recursive call of `getBridge` gets at least two candidates |
| Bridge.GetBridge | script.js:352-551 | the two ends are input points with `left <= right` in (x, then y) order, and strictly so unless they straddle the median; the only exception is the missing median slope |
| Bridge.GetBridgeEnds | script.js:352-551 | a round returns `[left, right]` only when `left.x <= median <= right.x` (script.js:501), and then the trace ends in its "hrc"; otherwise the trace is empty or ends in "radl" (the two-point base case was reached, at once or after pruning) and `left < right`; the trace is empty exactly on two points |
| BridgeLoops.PairUp | script.js:366-391 | the pairing loop produces the pairs of `Pairing` over `new Set(points)`, leaves `Leftover`, and pushes one "ddl" per pair |
| BridgeLoops.DropVertical | script.js:392-419 | the splice loop leaves the non-vertical pairs with their slopes, adds the higher points of vertical pairs to the candidates, and pushes one "hidp" per vertical pair |
| BridgeLoops.Bucket | script.js:424-449 | the bucket loop fills `small`, `equal`, `large` and pushes "crdl"/"cydl"/"cgdl" as `Classify` says |
| BridgeLoops.MaxScan | script.js:456-462 | starting from minus infinity, the scan returns the first point of greatest intercept and that intercept |
| BridgeLoops.MaxSet | script.js:470-479 | the scan builds the set of points on the highest line |
| BridgeLoops.Ends | script.js:481-489 | the two scans return the lexicographic least and greatest points of `max_set` |
| BridgeLoops.KeepHiPass | script.js:507-518 | the loop's candidates and "hidp" records are those of `KeepHi` |
| BridgeLoops.KeepLoPass | script.js:525-536 | the loop's candidates and "hidp" records are those of `KeepLo` |
| BridgeLoops.KeepBothPass | script.js:519-523 | the nested loop's candidates are those of `KeepBoth` |
| BridgeLoops.RunRound | script.js:366-496 | one round computes `RoundOf` and appends its records up to "hrc" (which carries `left` and `right` unreflected even on the reflected pass) |
| BridgeLoops.RunPrune | script.js:507-541 | the pruning branches compute the candidates and records of `Prune` |
| Bridge.GetBridgeRecurses | script.js:501-550 | a round that misses the median passes on fewer candidates without repetition, pushes its pruning records and "radl", then recurses on them |
| BridgeLoops.RunGetBridge | script.js:352-551 | the recursive method returns the ends of `GetBridge` and appends its whole trace, or throws where it throws |
| UpperHull.ConnectFirst | script.js:553-614 | the chain `connect` returns starts at `p1` (a single point gives `[p1]`) |
| UpperHull.ConnectLast | script.js:553-614 | the chain `connect` returns ends at `p2` |
| UpperHull.ConnectWithin | script.js:553-614 | the chain uses only the points given |
| UpperHull.ConnectRising | script.js:553-614 | the chain runs from left to right in x |
| UpperHull.ConnectFault | script.js:553-614 | `connect` throws only where `getBridge` does |
| UpperHull.Connect | script.js:553-614 | `connect` as a value: the base case pushes "kagp" and returns `[p1]`, otherwise the chains of the two recursive calls are concatenated (its properties are the `Connect*` lemmas) |
| UpperHull.MedianX | script.js:562-569 | the median x lies between the x of the two middle points of the sorted points |
| UpperHull.SidesOf | script.js:577-587 | the point sets of the two recursive calls, as a value: `small` is the bridge's left end and the points left of it, `large` the right end and the points right of it (see `SmallSide`, `LargeSide`) |
| UpperHull.SplitEvents | script.js:564-608 | the records `connect` pushes between its median and its recursive calls, as a value: "kmedx", the bridge's trace, "radl", "dsl" and "hidp" |
| UpperHull.MedianBetween | script.js:562-569 | the median x, halfway between the sorted middle points at `floor(n/2) - 1` and `floor(n/2)`, lies strictly between the two ends |
| UpperHull.SmallSide | script.js:578-582 | `small` (the bridge's left end and the points left of it) lies at or left of the left end and misses `p2`, so the call on it is smaller |
| UpperHull.LargeSide | script.js:583-587 | `large` (the bridge's right end and the points right of it) lies at or right of the right end and misses `p1` |
| UpperHull.Divide | script.js:562-611 | both recursive calls of `connect` get well-formed, strictly smaller point sets on the two sides of the bridge |
| UpperHull.JoinRising | script.js:613 | two rising chains on either side of the bridge concatenate into a rising chain |
| UpperHull.FirstLeast | script.js:618-622 | the first loop keeps the first point of least x |
| UpperHull.FirstGreatest | script.js:635-638 | the first loop keeps the first point of greatest x |
| UpperHull.ColumnMembers | script.js:623-629 | a point is pushed on `leftarr`/`rightarr` exactly when it is one of the points and has the x of the extreme (`Column` keeps their order) |
| UpperHull.OutsideMembers | script.js:667-676 | the "hidp" record lists exactly the points missing from `newPoints` |
| UpperHull.Raise | script.js:630-633 | the tie-breaking loop moves to the highest point straight above |
| UpperHull.LeftMost | script.js:618-633 | `leftMost` has the least x and, among those, the greatest y |
| UpperHull.RightMost | script.js:635-649 | `rightMost` has the greatest x and, among those, the greatest y |
| UpperHull.Between | script.js:657-662 | exactly the points strictly between the extremes in x and not below `min(leftMost.y, rightMost.y)` are kept, in order |
| UpperHull.Kept | script.js:655-678 | `newPoints` as a value: `leftMost`, the points `Between` keeps, `rightMost` (see `KeptSpan`) |
| UpperHull.KeptSpan | script.js:655-678 | `newPoints` and the two extremes meet what `connect` needs |
| UpperHull.GetUpperHull | script.js:617-679 | the chain runs from `leftMost` to `rightMost` through input points from left to right; `leftarr`/`rightarr` change only on the unreflected pass; empty input throws, otherwise only a missing median slope does |
| UpperHull.Close | script.js:705-710 | the upper chain loses its last point exactly when the lower chain starts there, then the lower chain loses its last point exactly when the upper chain starts there, and the hull is the upper chain followed by the lower one; it holds exactly the points of both chains and starts where the upper chain does; an upper chain popped empty throws |
| UpperHull.CloseDistinct | script.js:705-710 | two chains without repetition that share only those two ends close into a hull without repetition |
| UpperHull.AfterXterm | script.js:694-702 | `leftarr`/`rightarr` are permuted into ascending y in place when they hold two points or more, and left alone otherwise |
| UpperHull.Xterms | script.js:694-702 | at most one "xterm" record, carrying the array sorted by y, and only when it holds two points or more |
| UpperHull.ConvexHull | script.js:681-711 | the hull starts at `leftMost` and lists only input points |
| UpperHull.ConvexHullCloses | script.js:681-711 | a hull that `convexHull` returns is exactly `Close` of the upper chain of the points and the reflected upper chain of the reflected points, both passes succeeding with non-empty chains |
| UpperHull.Finish | script.js:688-711 | after both chains, `convexHull` throws exactly when the upper chain is the single point at which the flipped lower chain starts; otherwise the hull is `Close` of the two chains, and `leftarr`/`rightarr` come out as `AfterXterm` leaves them |
| UpperHull.UpperOfOne | script.js:617-679 | on a single point a pass returns that point alone |
| UpperHull.OnePointThrows | script.js:681-711 | a single point makes `convexHull` throw once its upper chain is popped empty |
| UpperHull.ThrowsOnlyOnOnePoint | script.js:681-711 | that exception happens only on a single point |
| HullLoops.SmallSet | script.js:577-582 | the loop fills `small` as `SidesOf` says |
| HullLoops.LargeSet | script.js:583-587 | the loop fills `large` as `SidesOf` says |
| HullLoops.Union | script.js:589-595 | `smalllarge` is `small` followed by the new points of `large` |
| HullLoops.Hidden | script.js:597-608 | the "hidp" payload lists, in order and reflected back when needed, the points outside `smalllarge` |
| HullLoops.MiddlePoints | script.js:562-563 | the two `quickselect` calls sort the points and return the two middle ones |
| HullLoops.SplitSides | script.js:577-608 | the loops after the bridge give the sides of `SidesOf` and the hidden payload |
| HullLoops.RunDivide | script.js:562-611 | `connect` up to its recursive calls gives the bridge, the sides and the records of `Divide` |
| HullLoops.RunConnect | script.js:553-614 | the recursive method returns the chain of `Connect` and appends its records, or throws where it throws |
| HullLoops.LeastX | script.js:618-622 | the loop returns `FirstLeast` |
| HullLoops.GreatestX | script.js:635-638 | the loop returns `FirstGreatest` |
| HullLoops.PushColumn | script.js:623-629 | the loop appends `Column` to the array |
| HullLoops.RaiseScan | script.js:630-633 | the loop returns `Raise` |
| HullLoops.KeptScan | script.js:655-663 | the loop builds `newPoints` as `Kept` |
| HullLoops.RunGetUpperHull | script.js:617-679 | the method returns the chain of `GetUpperHull` and appends its records and its `leftarr`/`rightarr` entries |
| HullLoops.JoinChains | script.js:705-710 | the two pops and the concatenation compute `Close` |
| HullLoops.RunConvexHull | script.js:681-711 | the method returns the hull of `ConvexHull`, appends its records (without the last "radl" in `doc_script.js`) and leaves `leftarr`/`rightarr` sorted by y |
| HullLoops.RunFinish | script.js:688-711 | the closing statements of `convexHull` return the result of `Finish` and append its records and y-sorted side arrays |

## Left out

- Rendering is not modelled: the SVG drawing, `kpsPerformActions`, `findintercept`, the marking helpers and the button handlers. Of `performActions` only the bookkeeping of its Jarvis line arrays is modelled, as two counts (`JarvisMarch.Replay`, `JarvisMarch.Effect`): "asl" and "adl" push a line, "rsl" pops the newest solid line (`None` where the renderer would pop an empty array and throw), "rdl" empties the dashed lines. The line objects, their coordinates, the circles (modelled as the list of marked points, `Marks`) and the delays are not modelled.
- `getRandomNumber` is not modelled, because it depends on `Math.random`. Points are inputs.
- `findAngle` (`atan2` converted to degrees) and `Math.hypot` are floating-point library computations. They enter as the two functions of a `Metric` parameter. Every property holds for any such functions.
- JarvisMarch.Jarvis: requires `findAngle` never to exceed 360 (`AngleAtMost360`), which holds of the source's `findAngle`: it adds 180 to an `atan2` result in degrees. Rounding at that bound is not modelled.
- Points are values compared by their coordinates. The source compares arrays by identity (`===`, `Set`). The Kirkpatrick–Seidel members therefore require input without two equal points, where value and identity equality agree.
- JavaScript `Set` is modelled as an insertion-ordered sequence without repetition.
- The `JSON` copies in the Jarvis March are modelled as plain value copies, and so is the `x || 0` defaulting of `Point`.
- Numbers are exact reals. Floating-point rounding in slopes, intercepts and the exact intercept comparison is not modelled.
- The library `Array.prototype.sort` is not modelled as code. It is specified by its result: the stable insertion sorts `SortLex`, `SortReals` and `SortByY`.
- `quickselect` keeps the in-place sort on an array (`Sorting.Quickselect`). In `connect`, `HullLoops.MiddlePoints` copies `points` into a fresh array, runs `Quickselect` on it twice and returns the sorted contents, which the rest of `connect` uses in place of `points`. The source sorts the caller's array itself; no caller reads that array after `connect` returns, so the copy is not observable.
- The global arrays `actions`, `leftarr`, `rightarr`, `hullpoints` and `action` are parameters. Each method returns them with the entries it appends.
- A step that throws is a `Result.Err` naming why. The records pushed before the exception are not specified on that path.
- An all-vertical round in `getBridge`, and a one-point upper chain in `convexHull`, throw inside recursion. A precondition excluding them could not be established for the recursive calls, so they are modelled as error results.
