# ts2 interlocking and simulation core, modelled in Dafny

This project models the core of the ts2 train signalling simulator: the logic of
`ts2/simulation.py` and the small helpers of `ts2/utils.py`.

The modelled parts are:

- **Track-link builder** (`createTrackItemsLinks`). It derives the previous, next and
  reverse links of the track items from their endpoint coordinates.
- **Link validator** (`checkTrackItemsLinks`). It reports every item that lacks a
  required link.
- **Two-click route controller** (`activateRoute`, `desactivateRoute`, `findRoute`).
  It runs over one "selected signal" slot and the route registry, and keeps the
  interlocking rule: no two active routes share a track item.
- **Simulation clock** (`pause`, `setTimeFactor`, `timerOut`, the 500 ms timer).
- **Load and save decisions**: the `__type__` dispatch of `json_hook`, the
  option overlay of the constructor and of `for_json`, and the `hh:mm:ss` start time.
- **Lookups**: `updatePlaces`, `place` and `getLineItem`.
- **`cumsum` and `DurationProba`**, with the random draws passed in as parameters.

Entities live in id-keyed maps. Python's insertion-ordered dictionaries are a
key sequence `order` plus a `map`. Operations are pure functions that return the
new state. Qt signal emissions and `SignalItem.unselect()` calls are returned as
an event list.

One file per component:

| file | module | models |
|---|---|---|
| `common.dfy` | `Common` | `Option`, `Result`, first-match scan |
| `track.dfy` | `Track` | track items, points, the one-unit distance test |
| `links.dfy` | `Links` | `createTrackItemsLinks` |
| `validator.dfy` | `Validator` | `checkTrackItemsLinks` |
| `routes.dfy` | `Routes` | route registry, `findRoute`, the interlocking rule |
| `interlocking.dfy` | `Interlocking` | `activateRoute`, `desactivateRoute` |
| `clock.dfy` | `Clock` | `pause`, `setTimeFactor`, `timerOut` |
| `options.dfy` | `Options` | `BUILTIN_OPTIONS`, option overlays, `hh:mm:ss`, the game session (options, clock, score) |
| `loading.dfy` | `Loading` | `json_hook`, the top-level check of `load` |
| `startup.dfy` | `Startup` | `load` end to end: decoding, the `Simulation` record's keys, `initialize`'s link check and clock start |
| `lookup.dfy` | `Lookup` | `updatePlaces`, `place`, `getLineItem` |
| `utils.dfy` | `Utils` | `cumsum`, `DurationProba` |

## Modelling assumptions

The classes `Route` and `SignalItem` and the item classes are not part of this model.
Their behaviour is modelled abstractly, as follows:

- `Route.links(a, b)` holds when the route's entry signal is `a` and its exit signal is `b`.
- `Route.isActivable()` holds when no *other* active route shares a track item id with the route.
- `Route.activate(p)` makes the route active, with persistence `p`.
- `Route.desactivate()` makes the route neither active nor persistent.
- `SignalItem.nextActiveRoute` is the first active route, in registry order, whose entry is that signal.
- The `previousItem`, `nextItem` and `reverseItem` setters are plain assignments.
- An item's `tiId` is its key in `_trackItems`, so messages name items by key.
- `InvisibleLinkItem` is a subclass of `LineItem`. Item categories are a closed `Kind` datatype.
- `QTime` is a time of day in milliseconds, and `addMSecs` wraps modulo 86 400 000.
  `QTime.fromString(s, "hh:mm:ss")` accepts exactly two digits per field.
- Coordinates are exact reals. `distanceBetween(p, q) <= 1` becomes
  "squared distance <= 1", which is equivalent because both sides are non-negative.
- The time factor is an integer. `interval * factor` milliseconds is therefore exact.
- Python floats are exact reals: the durations and weights of a `DurationProba`, their
  cumulative sums, the draws `u0` and `u1`, `r0 = 100 * u0`, the interpolated value
  and the elapsed seconds of `timerOut`. In particular a draw that equals a
  cumulative weight exactly (`Utils.BoundaryDrawGivesMaximum`) is an exact-real fact;
  rounded float sums need not hit the same boundaries.
- The `timeFactor` option and the clock's factor are one value: `Options.Session`
  keeps the option bag, the clock and the score together, and `Options.InSync` says
  the option holds the clock's factor.

## Notable behaviour of the code

- **Conflict branch of `activateRoute`.** The code unselects only the second signal and
  keeps the first one in `_selectedSignal` (`ts2/simulation.py:511-518`).
- **Ambiguous endpoints in the link builder.** The builder's assignments are
  unconditional (`ts2/simulation.py:618-643`), so a *later* pair overwrites an earlier
  link (`Links.LastWriterWins`).
- **Points reverse checks.** The reverse-point checks are an `elif` chain. When the
  outer item is a points item, the inner item's reverse point is never examined.
  Two points items joined only through the second one's reverse point are therefore
  left unlinked (`Links.SecondReverseSkippedExample`).
- **Time factor bounds.** `setTimeFactor` clamps only from above
  (`ts2/simulation.py:566`). A negative factor is stored, and time then runs backwards.
- **Resume at factor 0.** `pause(False)` restarts the timer even when the factor is 0
  (`ts2/simulation.py:555-558`). The ticks then advance time by 0 ms.
- **Non-list durations.** `yieldValue` returns stored data it cannot iterate, such as
  a plain number, unchanged (`ts2/utils.py:104-107`), so such data is a constant duration.

## Model

| member | source | states |
|---|---|---|
| Links.LinkStep | ts2/simulation.py:618-643 | a reverse slot is filled only in a points item (in `vj` only when `vi` is not one); no link means no endpoint of one item is within one unit of an endpoint of the other, nor of `vi`'s reverse point when `vi` is a points item |
| Links.LinkStepIsFirstHit | ts2/simulation.py:618-643 | the if/elif chain equals "first comparison, in the order origin/origin, origin/end, end/origin, end/end, then the reverse point, whose points are within one unit" |
| Links.LinkStepFirstMatch | ts2/simulation.py:618-643 | a pair gets at most one assignment pair; it comes from the first comparison that hits; no link is made iff no comparison hits |
| Links.SecondReverseUncheckedForPointsPair | ts2/simulation.py:630-643 | when the first item is a points item, moving the second item's reverse point anywhere never changes the decision; so two points items whose six listed comparisons miss stay unlinked |
| Links.SecondReverseSkippedExample | ts2/simulation.py:630-643 | concrete pair of points items touching only through the second's reverse point stays unlinked |
| Links.EachPairOnce | ts2/simulation.py:615-617 | the nested loop visits every pair of distinct keys exactly once, smaller key first, and no other pair |
| Links.ApplyPair | ts2/simulation.py:618-643 | one pair links the two items both ways in the chosen slots; a pair with no near endpoint changes nothing; no other item or slot changes; geometry is untouched |
| Links.LastWriterWins | ts2/simulation.py:615-643 | after the whole loop, each slot holds the value written by the last pair that wrote it, or its initial value |
| Links.CreateTrackItemsLinks | ts2/simulation.py:609-643 | the builder keeps the item set and every item's category, coordinates and codes |
| Links.CreatedLinksJoinNearItems | ts2/simulation.py:615-643 | every link the builder changes points to a different item whose geometry links the two in that slot |
| Track.SqDist | ts2/simulation.py:676-681 | squared distance is non-negative and zero for equal points |
| Validator.ItemViolations | ts2/simulation.py:656-672 | an item yields no message iff it is a marker or has its previous link and, unless it is an end item, its next link |
| Validator.CheckTrackItemsLinks | ts2/simulation.py:645-673 | returns true iff every item of the dictionary is linked iff the log is empty; the log is every missing-link message in item order, with no early exit |
| Validator.AllLinkedCoversKeys | ts2/simulation.py:655-673 | over the whole item dictionary, every listed item linked is every item linked |
| Validator.MissingLinksReported | ts2/simulation.py:659-672 | every missing previous link is reported at the item's origin, and every missing next link of a non-end item at its end point |
| Validator.ReportsAreMissingLinks | ts2/simulation.py:659-672 | every message names an item that needs links and lacks one at the reported point |
| Validator.OneMessagePerMissingLink | ts2/simulation.py:659-672 | the number of messages equals the number of missing links |
| Routes.FindRoute | ts2/simulation.py:593-607 | returns the first route in registry order from `a` to `b`, and none iff no route links them |
| Routes.FindRouteIsDirectional | ts2/simulation.py:604-607 | for A different from B, a route registered from A to B is found from A to B and never answers a query from B to A; with no other route from B to A that query finds nothing |
| Routes.Activate | ts2/simulation.py:507 | activation changes only that route: it becomes active with the caller's persistence |
| Routes.Desactivate | ts2/simulation.py:547 | deactivation changes only that route: it becomes inactive |
| Routes.NextActiveRoute | ts2/simulation.py:545 | the route found is an active route whose entry is the signal; none iff there is no such route |
| Routes.ActivateKeepsSafe | ts2/simulation.py:505-507 | activating an activable route keeps active routes pairwise item-disjoint |
| Routes.DesactivateKeepsSafe | ts2/simulation.py:545-547 | deactivation keeps active routes pairwise item-disjoint |
| Interlocking.ActivateRoute | ts2/simulation.py:470-527 | unknown id is a KeyError; first click or re-click arms the signal; found and activable (or forced) activates that route only, clears the slot and unselects both signals; a conflict emits conflictingRoute, unselects the second signal and changes nothing else; no route emits noRouteBetweenSignals, unselects the first signal and arms the second |
| Interlocking.ActivateRouteSelection | ts2/simulation.py:497-523 | the armed signal afterwards is the clicked one (idle, re-click, no route), none (activated) or the previous one (conflict) |
| Interlocking.ActivateRouteChangesRoutesOnlyOnSuccess | ts2/simulation.py:502-527 | route state changes only when a route was found and activable or forced, and then only that route changes |
| Interlocking.ActivateRouteKeepsInterlocking | ts2/simulation.py:503-510 | without force, a click never makes two active routes share a track item |
| Interlocking.ForceOverridesInterlocking | ts2/simulation.py:505-507 | with force, a conflicting route is activated and two active routes share an item |
| Interlocking.DesactivateRoute | ts2/simulation.py:530-547 | unknown id is a KeyError; no signal is armed afterwards (the armed one is unselected); exactly the signal's next active route is deactivated, or no route changes |
| Interlocking.DesactivateRouteKeepsInterlocking | ts2/simulation.py:540-547 | a right click keeps active routes pairwise item-disjoint |
| Interlocking.TwoClicksActivate | ts2/simulation.py:497-510 | clicking entry then exit of an activable route activates it with the given persistence and leaves no signal armed |
| Interlocking.TwoClicksConflict | ts2/simulation.py:511-518 | the same clicks against an active route sharing an item report the conflict, change no route and keep the first signal armed |
| Clock.Pause | ts2/simulation.py:550-558 | the timer runs iff not paused; time and factor are kept |
| Clock.SetTimeFactor | ts2/simulation.py:561-568 | stores the factor clamped to at most 10 with no lower bound; the timer runs iff the requested factor is non-zero; time is kept |
| Clock.TimerOut | ts2/simulation.py:571-579 | a tick advances time by 500 x factor ms modulo a day, reports the new time and 500 x factor / 1000 elapsed seconds, and keeps factor and timer state |
| Clock.Run | ts2/simulation.py:217-220 | driving the timer keeps the time a valid time of day and never changes factor or timer state |
| Clock.RunAdvances | ts2/simulation.py:575-576 | n timer periods advance time by n x 500 x factor ms modulo a day while running, and not at all while stopped |
| Clock.ZeroFactorFreezesTime | ts2/simulation.py:565-568 | after setting the factor to 0 no tick happens, however long the timer is driven |
| Clock.LargeFactorClamped | ts2/simulation.py:566 | a requested factor of 15 is stored as 10 and the timer runs |
| Clock.FactorFiveTick | ts2/simulation.py:575-579 | from 06:00:00 at factor 5 one tick gives 06:00:02.5 and reports 2.5 s |
| Clock.TickWrapsAtMidnight | ts2/simulation.py:576 | a tick past midnight wraps to 00:00:00 |
| Clock.PauseResumeKeepsTime | ts2/simulation.py:555-558 | pausing then resuming keeps time and factor |
| Options.BuiltinOptions | ts2/simulation.py:38-51 | the defaults are exactly the twelve built-in keys, with version set to the file format, currentTime 06:00:00, timeFactor 5 and currentScore 0 |
| Options.MergeOptions | ts2/simulation.py:149-151 | the bag holds every default and loaded key; loaded values win; defaults fill the rest |
| Options.GetOption | ts2/simulation.py:292-298 | an option is found iff its key is in the bag, and then it is the stored value |
| Options.SaveOptions | ts2/simulation.py:225-232 | the saved bag is the live options with the current time as hh:mm:ss and the score written over them; every other option, the time factor included, is saved as it stands |
| Options.ParseTime | ts2/simulation.py:214-215 | a parsed start time is a valid whole-second time of day |
| Options.FormatTime | ts2/simulation.py:230 | the saved time has the hh:mm:ss shape |
| Options.TimeRoundTrip | ts2/simulation.py:214-232 | formatting then parsing a time gives it back truncated to the whole second |
| Options.DefaultStartTime | ts2/simulation.py:43 | the default 06:00:00 parses to 21 600 000 ms |
| Options.LoadedTime | ts2/simulation.py:214-215 | a loaded start time is a whole-second time of day read from a string `currentTime` option |
| Options.Start | ts2/simulation.py:214-221 | the clock part of `initialize` (reached only once the link check passed, see `Startup.Initialize`) starts iff the stored time parses and the factor and score are integers; the clock is at that time, runs at the stored factor, the timer runs, and the score is the stored score |
| Options.SetTimeFactor | ts2/simulation.py:561-568 | the clock takes the new factor as `Clock.SetTimeFactor` does and the `timeFactor` option records the same clamped value; no other option changes |
| Options.Tick | ts2/simulation.py:571-576 | a tick moves only the clock, so the factor option keeps describing it |
| Options.DefaultOptionsStartAtSix | ts2/simulation.py:214-221 | with no stored options the game starts at 06:00:00, at factor 5, with the timer running and a score of 0 |
| Options.SaveLoadRoundTrip | ts2/simulation.py:214-232 | merging defaults into a saved bag changes nothing, and starting from it resumes with the same factor and score, the time truncated to the second, and the timer running |
| Options.SavedFactorFollowsSetTimeFactor | ts2/simulation.py:566 | a factor set during the game, clamped to 10, is the factor the save records |
| Loading.KindOfName | ts2/simulation.py:58-93 | a tag decodes to a kind only if it is that kind's tag, and to none iff it is no kind's tag |
| Loading.KindOfNameInvertsTypeName | ts2/simulation.py:58-93 | the tag table is a bijection between record kinds and their tags |
| Loading.JsonHook | ts2/simulation.py:54-98 | a missing or falsy tag passes the dict through; a known tag builds exactly its kind; any other tag is a format error |
| Loading.KnownTagsDecode | ts2/simulation.py:58-93 | every record kind's tag decodes to that kind |
| Loading.Load | ts2/simulation.py:119-123 | the decoding step of `load` succeeds iff every nested tag is known or absent and the top-level object is a Simulation; otherwise the error is "not a simulation" iff all tags were recognised |
| Startup.Initialize | ts2/simulation.py:184-221 | `initialize` raises "not all items are linked" iff some item of the dictionary lacks a required link, and otherwise starts the clock from the options |
| Startup.LoadSimulation | ts2/simulation.py:119-124 | `load` succeeds iff decoding succeeds, the Simulation record has all its keys and every item is linked; a missing key is a KeyError and an unlinked item the link-check error; a decoding error is passed on; success starts the clock from the options |
| Startup.LoadRequiresLinkedLayout | ts2/simulation.py:184-191 | whatever loads has every item linked, and a fully decoded, complete file with an unlinked item fails with the link-check error |
| Lookup.UpdatePlaces | ts2/simulation.py:586-591 | every entry maps a place code to a place item with that code |
| Lookup.UpdatePlacesKeepsLast | ts2/simulation.py:586-591 | a code is a key iff some place item has it, and it maps to the last such item in key order |
| Lookup.PlaceOf | ts2/simulation.py:402-411 | a missing or empty code gives None; a known code gives its place; an unknown non-empty code is a KeyError |
| Lookup.PlaceAfterUpdate | ts2/simulation.py:402-411 | after updatePlaces, place(code) succeeds iff a place item has the code, and returns such an item |
| Lookup.GetLineItem | ts2/simulation.py:683-694 | returns the first line item in key order with both codes, and None iff there is none |
| Utils.CumSum | ts2/utils.py:53-58 | one cumulative value per input value |
| Utils.CumSumIsPrefixSums | ts2/utils.py:53-58 | one value per input; the k-th value is the sum of the first k+1 inputs; the last value is the total |
| Utils.CumSumMonotone | ts2/utils.py:53-58 | with non-negative inputs the cumulative sums never decrease |
| Utils.NewDurationProba | ts2/utils.py:80-90 | non-string data (None, a triple list or a number) is stored unchanged; string data stores its evaluation, or None when evaluation failed |
| Utils.NullIffNoData | ts2/utils.py:89-98 | non-string data is stored unchanged, and isNull is true iff that data was None |
| Utils.NullIffYieldsNone | ts2/utils.py:96-107 | isNull holds iff yieldValue returns None, whatever the draws |
| Utils.Segment | ts2/utils.py:111-119 | the search returns the first segment strictly containing the draw, or the end when none does |
| Utils.YieldValue | ts2/utils.py:100-122 | None data gives None and a number is returned unchanged (the TypeError path); an empty list is an IndexError; no segment strictly containing 100 x u0 gives the last triple's upper bound; otherwise the first such segment is interpolated with u1 |
| Utils.InterpolationInRange | ts2/utils.py:120-122 | for u1 in [0, 1) the value lies in [low, high], and below high when low < high |
| Utils.BoundaryDrawGivesMaximum | ts2/utils.py:113-119 | with non-negative weights, a draw exactly on a boundary (e.g. 0) gives the last triple's upper bound |
| Utils.InteriorDrawFindsSegment | ts2/utils.py:113-116 | a draw strictly inside the outer bounds and on no boundary always falls in some segment |
| Utils.DefaultStopTimeExample | ts2/utils.py:100-122 | for the default stop-time distribution, a draw of 0.5 picks the segment 45..75, and a draw of 0 gives 90 |

## Left out

- Qt plumbing is not modelled: the graphics scene, the list and info models,
  `addTrain` row notifications and `registerGraphicsItem`. It has no decision logic.
- `saveGame`'s zip and bzip2 writing, `json.load` and `simplejson` encoding are not
  modelled. They are I/O. Only the tag dispatch and the option overlays are kept.
- The message logger, the scorer and translation are side-effect sinks. Their messages
  are not modelled, except the unlinked-item messages, which are the validator's output.
- `initialize`'s calls into the item, route, train type, service and train classes are
  not modelled. Neither are `setupTriggers` and the train sort. Those classes are not
  part of this model. `Startup.Initialize` takes the items as their own `initialize`
  left them, and errors those classes may raise are not among its outcomes.
- Startup.LoadSimulation: whether the `Simulation` record has its seven keys is one
  flag, and a `KeyError` from a missing key of any other record kind is not modelled,
  because those records are built by classes outside this model.
- `random.random()` becomes the parameters `u0` and `u1`. `eval` of probability
  strings is taken as already done. The `qDebug` branch for other exceptions is not
  modelled, because triples are assumed well formed.
- The network broadcast of the time (`ts2/xobjects/websocket.py`) is transport only.
- `activateRoute` and `desactivateRoute` on an id that is not a signal raise
  `AttributeError`, in `unselect()` and at `si.nextActiveRoute` respectively. The model
  takes any known id, because both slots are only connected to signal clicks.
- An invalid `QTime` is only represented as a failed parse. The clock is not run on one.
- Utils.YieldValue: a list whose entries are not `(low, high, weight)` triples (for
  instance a list of numbers, which also raises `TypeError` and is returned as it is)
  is not modelled, because the stored data is `None`, a triple list or a number.
- Options.Start: a factor or score stored as a float or a string, and an invalid start
  time, give `None`; the model does not start a game from them.
- `updatePlaces` is stated over any key list whose ids are items (`Track.Indexed`),
  which covers the whole item dictionary (`Track.KeyOrder`) as one case.
- The conversion of dictionary keys with `int(key)` in the constructor is not modelled.
  Neither are the trivial getters `trackItem`, `service`, `setOption` and `context`.
- The selected flag of each signal is not kept as state. Unselection is an event.
- Interlocking.ActivateRoute: `persistent` and `force` are plain booleans. The log
  messages "Conflicting route" and "No route between signals" are not among the events.
