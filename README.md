# WebHeadService: bubble registry and predictive prefetch

This project models the core of `WebHeadService` in the Chromer/Lynket
browser. The service keeps the floating "web heads" (bubbles), one per
background-loading page. It also decides which URLs the custom-tab session
should pre-warm next through `mayLaunchUrl(priority, null, speculative)`.

Modules:

- `Wrappers`: `Option`, standing for a Java reference that may be null.
- `CaseFold`: the two URL comparisons the service uses. Exact equality is
  used for the registry keys. `EqIgnoreCase` models `String.equalsIgnoreCase`
  and is used for the scheduler's reference match.
- `Registry`: the keys of `mWebHeads` (a `LinkedHashMap`) as a `seq<string>`
  in insertion order. It holds the uniqueness invariant and `Remove`.
- `Scheduler`: the prefetch choice.
  - `WorkingList` is the stack that `getUrlStack` builds. `NextSet` is what
    `prepareNextSetOfUrls` asks for. Both are pure specifications.
  - `GetUrlStack`, `SelectNextSetOfUrls` and `GetPossibleUrls` keep the
    source's loops. They are proved to return exactly `WorkingList`, exactly
    `NextSet` and the registry itself.
- `Retrier`: the loop of `deferMayLaunchUntilConnected`, run sequentially.
  - The environment supplies two values for each of the 10 iterations: the
    connection flag that iteration reads, and what `mayLaunchUrl` returns if
    it is called there.
  - `Run` specifies the loop. The lemmas bound it and characterise its calls.
- `Service`: the class `WebHeadService`.
  - Its fields are the registry, the per-bubble state, `mCustomTabConnected`
    and `sLastOpenedUrl`.
  - A ghost log records, in order, the outside effects the model covers:
    - each `mayLaunchUrl` request and each deferred prefetch;
    - each teardown (`stopSelf`) and each `destroySelf` request;
    - binding and unbinding the custom-tab session;
    - the "already loaded" notice and the colour update;
    - opening a tab and hiding the remove view;
    - the page-extraction calls: starting a download, registering and
      unregistering the listener, and cancelling all downloads.
  - Notifications and receiver registration are not logged (see
    "## Left out").

Points where the code behaves in a way that is easy to misread:

- The reference test of `getUrlStack` at line 352 (`containsKey`) is
  case-sensitive. The walk at line 356 (`equalsIgnoreCase`) is not.
  - A reference that matches a key only ignoring case is not a key, so
    nothing is dropped (`Scheduler.ScenarioCaseOnlyReference`).
  - When the reference is a key, the walk drops the first URL that matches it
    ignoring case. That can be a different bubble from the reference
    (`Scheduler.ScenarioCaseVariantDroppedBeforeKey`).
- `addWebHead` starts the page download and does not prefetch. The
  full-registry prefetch happens later, in `onUrlUnShortened`.
- A duplicate URL never reaches `put`. `processIntentAndWebHead` tests
  `isLinkAlreadyLoaded` first and shows a notice instead.

No registry URL is ever null. `isLinkAlreadyLoaded` rejects a null URL, and
a bubble's URL is its key. So the `url == null` skips in
`prepareNextSetOfUrls` and `getPossibleUrls`, and the `priorityUrl == null`
return, can never fire. URLs are plain strings in the model.

## Model

| member | source | states |
|---|---|---|
| `CaseFold.EqIgnoreCase` | app/src/main/java/arun/com/chromer/webheads/WebHeadService.java:356 | specification predicate for `equalsIgnoreCase`: same length, and equal at every position after `FoldChar`, its per-character step that folds an ASCII upper-case letter to lower case. `EqIgnoreCaseReflexive` and `CaseOnlyDifference` describe it |
| `CaseFold.EqIgnoreCaseReflexive` | app/src/main/java/arun/com/chromer/webheads/WebHeadService.java:352-356 | every URL equals itself ignoring case, so a reference that passed `containsKey` is found by the walk |
| `CaseFold.CaseOnlyDifference` | app/src/main/java/arun/com/chromer/webheads/WebHeadService.java:352-356 | the key test and the walk's test differ: two distinct keys can be equal ignoring case |
| `Registry.Remove` | app/src/main/java/arun/com/chromer/webheads/WebHeadService.java:442 | `remove(url)` leaves exactly the other keys |
| `Registry.RemoveAbsent` | app/src/main/java/arun/com/chromer/webheads/WebHeadService.java:442 | removing a URL that is not a key changes nothing |
| `Registry.RemoveAt` | app/src/main/java/arun/com/chromer/webheads/WebHeadService.java:442 | removing the key at position i closes the gap, keeps every other key in its insertion order, shrinks the registry by one and keeps keys unique |
| `Registry.RemoveKeepsDistinct` | app/src/main/java/arun/com/chromer/webheads/WebHeadService.java:442 | removal keeps keys unique |
| `Registry.AppendKeepsDistinct` | app/src/main/java/arun/com/chromer/webheads/WebHeadService.java:168-177 | appending a URL that is not yet a key keeps keys unique |
| `Scheduler.FirstMatch` | app/src/main/java/arun/com/chromer/webheads/WebHeadService.java:354-357 | the position where `foundWebHead` turns true: a case-insensitive match with no match before it |
| `Scheduler.DropFirstMatch` | app/src/main/java/arun/com/chromer/webheads/WebHeadService.java:353-361 | the walk drops one URL when some URL matches ignoring case, and none otherwise |
| `Scheduler.WorkingList` | app/src/main/java/arun/com/chromer/webheads/WebHeadService.java:350-367 | the stack has n-1 URLs when the reference is an exact key and all n otherwise |
| `Scheduler.NextSet` | app/src/main/java/arun/com/chromer/webheads/WebHeadService.java:313-335 | specification function for the request of `prepareNextSetOfUrls`: none exactly when the working list is empty, otherwise the top of the stack is the priority. `NextSetReferenceAbsent`, `NextSetReferenceIsKey` and `NextSetSize` describe it, and `SelectNextSetOfUrls` is proved equal to it |
| `Scheduler.DropFirstMatchNoMatch` | app/src/main/java/arun/com/chromer/webheads/WebHeadService.java:355-357 | with no case-insensitive match, every URL is pushed |
| `Scheduler.DropFirstMatchSplices` | app/src/main/java/arun/com/chromer/webheads/WebHeadService.java:353-361 | the walk cuts out exactly the first case-insensitive match; the URLs before it and after it keep their order |
| `Scheduler.DropFirstMatchAppend` | app/src/main/java/arun/com/chromer/webheads/WebHeadService.java:354-361 | one loop step: after a match everything is pushed; the matching URL is skipped; before a match a URL is pushed |
| `Scheduler.WorkingListReferenceAbsent` | app/src/main/java/arun/com/chromer/webheads/WebHeadService.java:362-366 | a reference that is not an exact key leaves the whole registry in insertion order |
| `Scheduler.WorkingListReferenceIsKey` | app/src/main/java/arun/com/chromer/webheads/WebHeadService.java:352-361 | an exact key drops exactly the first case-insensitive match, at or before the key; the result is the registry spliced around it, size n-1, and later matches are kept |
| `Scheduler.NextSetReferenceAbsent` | app/src/main/java/arun/com/chromer/webheads/WebHeadService.java:313-330 | reference not a key: no request for an empty registry; otherwise priority is the last-inserted URL and speculative is all the others in order |
| `Scheduler.NextSetReferenceIsKey` | app/src/main/java/arun/com/chromer/webheads/WebHeadService.java:313-330 | reference a key: no request exactly when it was the only bubble; otherwise speculative has n-2 URLs, and speculative followed by priority is the spliced registry |
| `Scheduler.NextSetSize` | app/src/main/java/arun/com/chromer/webheads/WebHeadService.java:315-332 | no request iff the working list is empty (always for an empty registry); otherwise one request whose speculative list is one shorter than the working list, and speculative followed by priority is the working list |
| `Scheduler.ScenarioReferenceInMiddle` | app/src/main/java/arun/com/chromer/webheads/WebHeadService.java:313-367 | `[a, b, c]` with reference `b` gives priority `c` and speculative `[a]` |
| `Scheduler.ScenarioReferenceAbsent` | app/src/main/java/arun/com/chromer/webheads/WebHeadService.java:313-367 | `[a, b, c]` with reference `z` gives priority `c` and speculative `[a, b]` |
| `Scheduler.ScenarioCaseOnlyReference` | app/src/main/java/arun/com/chromer/webheads/WebHeadService.java:352 | `[A, b]` with reference `a` drops nothing, because `a` is not a key |
| `Scheduler.ScenarioCaseVariantDroppedBeforeKey` | app/src/main/java/arun/com/chromer/webheads/WebHeadService.java:352-361 | `[A, a]` with reference `a` drops `A`, and `a` becomes the priority URL |
| `Scheduler.GetUrlStack` | app/src/main/java/arun/com/chromer/webheads/WebHeadService.java:350-368 | the push loops with the `foundWebHead` flag build exactly `WorkingList` |
| `Scheduler.SelectNextSetOfUrls` | app/src/main/java/arun/com/chromer/webheads/WebHeadService.java:313-330 | popping the priority and iterating the rest of the stack gives exactly `NextSet` |
| `Scheduler.GetPossibleUrls` | app/src/main/java/arun/com/chromer/webheads/WebHeadService.java:337-348 | every registry URL, in registry order, none excluded |
| `Retrier.Run` | app/src/main/java/arun/com/chromer/webheads/WebHeadService.java:285-301 | specification function for the rest of the loop from counter `i`: stop at 10, call on a set flag, and end after an accepted call. `RunExtends`, `RunCallsConnected`, `RunCallsAscending`, `RunStopsAtSuccess`, `RunCallsEveryConnectedIteration`, `RunOnlyCallsFrom` and `RunNeverConnected` describe it |
| `Retrier.Deferred` | app/src/main/java/arun/com/chromer/webheads/WebHeadService.java:285-301 | specification function for the whole loop from `i = 0` with no call made. `DeferredBounds`, `DeferredStopsAtSuccess`, `DeferredExhausted` and `DeferredCallsEveryConnectedIteration` describe it |
| `Retrier.DeferMayLaunchUntilConnected` | app/src/main/java/arun/com/chromer/webheads/WebHeadService.java:285-301 | the counted loop makes exactly the calls and runs exactly the iterations of `Deferred` |
| `Retrier.RunExtends` | app/src/main/java/arun/com/chromer/webheads/WebHeadService.java:285-301 | the loop only appends calls, at most one per remaining iteration, and never passes 10 iterations |
| `Retrier.RunCallsConnected` | app/src/main/java/arun/com/chromer/webheads/WebHeadService.java:288-292 | every call happens in an iteration that ran and read the flag as set |
| `Retrier.RunCallsAscending` | app/src/main/java/arun/com/chromer/webheads/WebHeadService.java:285-300 | calls happen in increasing iterations |
| `Retrier.RunStopsAtSuccess` | app/src/main/java/arun/com/chromer/webheads/WebHeadService.java:290-294 | every call but the last is rejected; the loop ends right after an accepted call and otherwise runs out |
| `Retrier.DeferredBounds` | app/src/main/java/arun/com/chromer/webheads/WebHeadService.java:285-301 | at most 10 iterations and at most 10 calls, each in an iteration that read the flag as set, in increasing order |
| `Retrier.DeferredStopsAtSuccess` | app/src/main/java/arun/com/chromer/webheads/WebHeadService.java:290-294 | an accepted call is the last call, and the loop stops in its iteration |
| `Retrier.DeferredExhausted` | app/src/main/java/arun/com/chromer/webheads/WebHeadService.java:285-301 | with no accepted call, all 10 iterations run |
| `Retrier.RunCallsEveryConnectedIteration` | app/src/main/java/arun/com/chromer/webheads/WebHeadService.java:286-294 | from any point of the loop, an iteration calls iff it reads the flag as set and no earlier call was accepted |
| `Retrier.RunOnlyCallsFrom` | app/src/main/java/arun/com/chromer/webheads/WebHeadService.java:286-300 | an iteration that has passed without a call is never called later |
| `Retrier.DeferredCallsEveryConnectedIteration` | app/src/main/java/arun/com/chromer/webheads/WebHeadService.java:286-294 | over the whole loop, iteration j calls `mayLaunchUrl` iff it reads the flag as set and no earlier call was accepted |
| `Retrier.ScenarioNineFailuresThenSuccess` | app/src/main/java/arun/com/chromer/webheads/WebHeadService.java:285-301 | nine rejections then an acceptance: ten calls, no eleventh iteration |
| `Retrier.RunNeverConnected` | app/src/main/java/arun/com/chromer/webheads/WebHeadService.java:286-300 | never connected: no call, and all iterations run |
| `Service.PrefetchEffects` | app/src/main/java/arun/com/chromer/webheads/WebHeadService.java:315-332 | specification function for the single `mayLaunchUrl` at 332: `[MayLaunch(r)]` for `Some(r)`, nothing for `None`. `PrepareNextSetOfUrls`, `OnWebHeadClick`, `OnWebHeadDestroyed` and `OnNavigationEvent` log it |
| `Service.DestroyEffects` | app/src/main/java/arun/com/chromer/webheads/WebHeadService.java:387-389 | one `destroySelf(false)` per bubble, in registry order |
| `Service.PrefetchAfterRemoval` | app/src/main/java/arun/com/chromer/webheads/WebHeadService.java:441-461 | once removed, the destroyed URL is not a key, so the prefetch asks for the whole remaining registry |
| `Service.WebHeadService.constructor` | app/src/main/java/arun/com/chromer/webheads/WebHeadService.java:122-142 | a new service has no bubble and is not connected. It has requested a binding and registered as the page-extraction listener, and it keeps the process-wide last opened URL |
| `Service.WebHeadService.IsLinkAlreadyLoaded` | app/src/main/java/arun/com/chromer/webheads/WebHeadService.java:277-279 | loaded iff the URL is null or already a key (case-sensitive) |
| `Service.WebHeadService.ProcessIntent` | app/src/main/java/arun/com/chromer/webheads/WebHeadService.java:162-172 | null: nothing changes; duplicate key: registry unchanged and a notice; otherwise the URL is appended after every existing key |
| `Service.WebHeadService.AddWebHead` | app/src/main/java/arun/com/chromer/webheads/WebHeadService.java:174-196 | the bubble is built and keyed with the same URL, goes last, and its download starts |
| `Service.WebHeadService.OnUrlUnShortened` | app/src/main/java/arun/com/chromer/webheads/WebHeadService.java:200-211 | nothing unless the original URL is a key; then the unshortened URL is recorded and prefetched with every registry URL as speculative, directly when connected and deferred otherwise |
| `Service.WebHeadService.PrepareNextSetOfUrls` | app/src/main/java/arun/com/chromer/webheads/WebHeadService.java:313-335 | issues exactly the request `NextSet` gives, or none |
| `Service.WebHeadService.OnWebHeadClick` | app/src/main/java/arun/com/chromer/webheads/WebHeadService.java:407-438 | acts only when the unshortened URL is non-empty: opens it, sets the last opened URL to the bubble's URL, requests close-on-open, prefetches with that URL as reference; registry unchanged |
| `Service.WebHeadService.OnWebHeadDestroyed` | app/src/main/java/arun/com/chromer/webheads/WebHeadService.java:441-463 | removes the URL first; the last bubble gives exactly one teardown and no prefetch; otherwise the full-list prefetch of the remaining registry |
| `Service.WebHeadService.DestroyAllWebHeads` | app/src/main/java/arun/com/chromer/webheads/WebHeadService.java:386-393 | every bubble is asked to destroy itself in order, then the registry is empty |
| `Service.WebHeadService.OnDestroy` | app/src/main/java/arun/com/chromer/webheads/WebHeadService.java:466-476 | all bubbles destroyed and the registry emptied, then pending downloads cancelled, the page-extraction listener unregistered and the binding released |
| `Service.WebHeadService.OnCustomTabsConnected` | app/src/main/java/arun/com/chromer/webheads/WebHeadService.java:493-496 | the connected flag is set |
| `Service.WebHeadService.OnCustomTabsDisconnected` | app/src/main/java/arun/com/chromer/webheads/WebHeadService.java:499-501 | the connected flag is cleared |
| `Service.WebHeadService.OnLocalBroadcast` | app/src/main/java/arun/com/chromer/webheads/WebHeadService.java:95-106 | rebind only when its flag is set; colour only when not 0; registry untouched |
| `Service.WebHeadService.OnNavigationEvent` | app/src/main/java/arun/com/chromer/webheads/WebHeadService.java:521-534 | TAB_HIDDEN prefetches with the current last opened URL, then resets it to ""; other events change nothing |

## Left out

- Animations are UI and are left out: the stack-distance and reveal
  animators, the colour reveal, and the remove-view destroy animator. A
  colour event is only logged. The teardown is logged once, whether or not it
  waits for an animation.
- `onUrlExtracted` (title, favicon loading with Glide, colour extraction) is
  left out. It is image and UI work and does not touch the registry.
- Left out as Android plumbing:
  - notifications (`showNotification`, `onStartCommand`'s return value);
  - receiver registration and the stop-service receiver;
  - the overlay-permission check in `onCreate`;
  - `getTabSession`, `onConfigurationChanged` and `runOnUiThread`.
  - the remove view's lifecycle (`RemoveWebHead.get` in `onCreate`,
    `RemoveWebHead.destroy` in `onDestroy`) and `stopForeground`.
- Intents, `Uri` and `Bundle` are not built. URLs are plain strings.
- `OnWebHeadClick` records the tab opening as one effect that carries the
  URL and the new-document flag. The other intent extras are left out.
- The real `CustomTabManager` is not part of this model, including binding,
  unbinding and the real `mayLaunchUrl`.
  - Binding is logged as an effect.
  - A `mayLaunchUrl` outcome is a value the environment supplies.
- `OnUrlUnShortened` does not run the deferred retry itself. It logs that the
  prefetch was deferred. The retry loop is modelled on its own in `Retrier`.
- `Retrier.DeferMayLaunchUntilConnected` records which iterations call
  `mayLaunchUrl`, not the request each call carries. In the source each call
  carries the unshortened URL and `getPossibleUrls()` read at that moment.
- Timing and threads are left out: the 300 ms sleeps, the background thread,
  and the unsynchronised cross-thread read of `mCustomTabConnected`. The
  retry loop reads one supplied flag value per iteration. The registry is
  not modelled changing between the loop's iterations.
- The `WebHead` class is not part of this model.
  - A new bubble is assumed to have no unshortened URL yet.
  - `isLastWebHead` is an input.
  - `destroySelf(true)` on close-on-open is logged as a request. The model
    assumes its `onWebHeadDestroyed` callback arrives after `onWebHeadClick`
    returns, as a separate `OnWebHeadDestroyed` call. So the click's prefetch
    at line 434 still sees the clicked URL as a key.
- `Service.WebHeadService.OnWebHeadClick` requires the clicked URL to be a
  key, because only a live bubble can be clicked.
- `Preferences` reads are boolean parameters (`mergeTabs`, `closeOnOpen`).
- The static `sInstance` is dropped.
- `CaseFold.EqIgnoreCase` folds ASCII letters only. Java's
  `equalsIgnoreCase` also folds non-ASCII letters.
