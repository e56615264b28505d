/**
 * The coordinator `WebHeadService`: the registry of bubbles, the connection
 * flag, the last opened URL, and the prefetch requests and teardowns it
 * issues as bubbles are added, opened and destroyed.
 */
module Service {
  import opened Wrappers
  import opened Registry
  import opened Scheduler

  /** The per-bubble state the service reads: its URL (the registry key), its unshortened URL once known, and whether it came from a new tab. */
  datatype Bubble = Bubble(url: string, unShortenedUrl: Option<string>, fromNewTab: bool)

  /** The local broadcasts the service listens for; the payload is the extra's value, or its default when absent. */
  datatype LocalBroadcast =
    | RebindConnection(shouldRebind: bool)
    | SetWebHeadColor(color: int)

  /** The custom-tab navigation events. */
  datatype NavigationEvent = TabShown | TabHidden | OtherNavigation(code: int)

  /** What the service does outside its own fields, in the order it does it. */
  datatype Effect =
    | MayLaunch(request: Request)            // mCustomTabManager.mayLaunchUrl(priority, null, speculative)
    | DeferMayLaunch(url: string)            // deferMayLaunchUntilConnected(url), modelled in Retrier
    | AlreadyLoadedNotice(url: string)       // the "already loaded" toast
    | StartDownload(url: string)             // PageExtractTasksManager.startDownload(url)
    | OpenTab(url: string, newDocument: bool)  // startActivity on the unshortened URL
    | DestroyBubble(url: string, receiveCallback: bool)  // webHead.destroySelf(flag)
    | HideRemoveView
    | StopService                            // the teardown: stopSelf, after the remove animation if any
    | BindSession
    | UnbindSession
    | RegisterExtractListener                // PageExtractTasksManager.registerListener(this)
    | CancelDownloads                        // PageExtractTasksManager.cancelAll(true)
    | UnregisterExtractListener              // PageExtractTasksManager.unRegisterListener()
    | UpdateColors(color: int)

  /** At most one `mayLaunchUrl` request. */
  function PrefetchEffects(req: Option<Request>): (effects: seq<Effect>)
  {
    if req.Some? then [MayLaunch(req.value)] else []
  }

  /** `webHead.destroySelf(false)` on every bubble, in registry order. */
  function DestroyEffects(urls: seq<string>): (effects: seq<Effect>)
    ensures |effects| == |urls|
    ensures forall k :: 0 <= k < |urls| ==> effects[k] == DestroyBubble(urls[k], false)
  {
    if urls == [] then []
    else DestroyEffects(urls[..|urls| - 1]) + [DestroyBubble(urls[|urls| - 1], false)]
  }

  /**
   * After a bubble is removed, its URL is no longer a key, so a prefetch with
   * it as reference asks for the whole remaining registry: the last-inserted
   * URL first and all the others, in order, as speculative.
   */
  lemma PrefetchAfterRemoval(reg: seq<string>, url: string)
    ensures var rest := Remove(reg, url);
      NextSet(rest, url) == if rest == [] then None else Some(Request(rest[|rest| - 1], rest[..|rest| - 1]))
  {
    NextSetReferenceAbsent(Remove(reg, url), url);
  }

  class WebHeadService {
    /** The keys of `mWebHeads`, in insertion order. */
    var webHeads: seq<string>
    /** The values of `mWebHeads`. */
    var bubbles: map<string, Bubble>
    /** `mCustomTabConnected`. */
    var customTabConnected: bool
    /** `sLastOpenedUrl`. */
    var lastOpenedUrl: string
    /** Every effect issued so far. */
    ghost var log: seq<Effect>

    /** Keys are unique, the map and the order hold the same URLs, and each bubble's URL is its key. */
    ghost predicate Valid()
      reads this
    {
      && Distinct(webHeads)
      && (forall u :: u in bubbles <==> u in webHeads)
      && (forall u :: u in bubbles ==> bubbles[u].url == u)
    }

    /**
     * `onCreate` once the overlay permission is granted: no bubble, not yet
     * connected, a binding requested, and the service registered as the
     * listener of the page-extraction tasks. `sLastOpenedUrl` is process-wide, so it
     * keeps the value `lastOpened` it had when the service was created.
     */
    constructor (lastOpened: string)
      ensures Valid()
      ensures webHeads == [] && bubbles == map[]
      ensures !customTabConnected && lastOpenedUrl == lastOpened
      ensures log == [BindSession, RegisterExtractListener]
    {
      webHeads := [];
      bubbles := map[];
      customTabConnected := false;
      lastOpenedUrl := lastOpened;
      log := [BindSession, RegisterExtractListener];
    }

    /** `isLinkAlreadyLoaded`: a null URL, or one that is already a key (case-sensitive). */
    function IsLinkAlreadyLoaded(url: Option<string>): (loaded: bool)
      reads this
      requires Valid()
      ensures loaded <==> url.None? || url.value in webHeads
    {
      url.None? || url.value in bubbles
    }

    /**
     * `processIntentAndWebHead` with `addWebHead`: nothing for a null URL, a
     * notice for a URL that is already a key, otherwise a new bubble appended
     * after every existing one.
     */
    method ProcessIntent(url: Option<string>, isFromNewTab: bool)
      requires Valid()
      modifies this
      ensures Valid()
      ensures customTabConnected == old(customTabConnected) && lastOpenedUrl == old(lastOpenedUrl)
      ensures url.None? ==> webHeads == old(webHeads) && bubbles == old(bubbles) && log == old(log)
      ensures url.Some? && url.value in old(webHeads) ==>
        webHeads == old(webHeads) && bubbles == old(bubbles) &&
        log == old(log) + [AlreadyLoadedNotice(url.value)]
      ensures url.Some? && url.value !in old(webHeads) ==>
        webHeads == old(webHeads) + [url.value] &&
        bubbles == old(bubbles)[url.value := Bubble(url.value, None, isFromNewTab)] &&
        log == old(log) + [StartDownload(url.value)]
    {
      if url.None? {
        return;
      }
      if !IsLinkAlreadyLoaded(url) {
        AddWebHead(url.value, isFromNewTab);
      } else {
        log := log + [AlreadyLoadedNotice(url.value)];
      }
    }

    /** `addWebHead`: the bubble is built and keyed with the same URL, and goes last. */
    method AddWebHead(webHeadUrl: string, isNewTab: bool)
      requires Valid() && webHeadUrl !in webHeads
      modifies this
      ensures Valid()
      ensures webHeads == old(webHeads) + [webHeadUrl]
      ensures bubbles == old(bubbles)[webHeadUrl := Bubble(webHeadUrl, None, isNewTab)]
      ensures customTabConnected == old(customTabConnected) && lastOpenedUrl == old(lastOpenedUrl)
      ensures log == old(log) + [StartDownload(webHeadUrl)]
    {
      AppendKeepsDistinct(webHeads, webHeadUrl);
      var webHead := Bubble(webHeadUrl, None, isNewTab);
      bubbles := bubbles[webHeadUrl := webHead];
      webHeads := webHeads + [webHeadUrl];
      log := log + [StartDownload(webHeadUrl)];
    }

    /**
     * `onUrlUnShortened`: only for a bubble that is still open, record its
     * unshortened URL and prefetch it with every registry URL as speculative,
     * directly when connected and through the deferred retry otherwise.
     */
    method OnUrlUnShortened(originalUrl: string, unShortenedUrl: string)
      requires Valid()
      modifies this
      ensures Valid()
      ensures webHeads == old(webHeads)
      ensures customTabConnected == old(customTabConnected) && lastOpenedUrl == old(lastOpenedUrl)
      ensures originalUrl !in old(webHeads) ==> bubbles == old(bubbles) && log == old(log)
      ensures originalUrl in old(webHeads) ==>
        bubbles == old(bubbles)[originalUrl := old(bubbles)[originalUrl].(unShortenedUrl := Some(unShortenedUrl))]
      ensures originalUrl in old(webHeads) && customTabConnected ==>
        log == old(log) + [MayLaunch(Request(unShortenedUrl, webHeads))]
      ensures originalUrl in old(webHeads) && !customTabConnected ==>
        log == old(log) + [DeferMayLaunch(unShortenedUrl)]
    {
      if originalUrl in bubbles {
        var webHead := bubbles[originalUrl];
        bubbles := bubbles[originalUrl := webHead.(unShortenedUrl := Some(unShortenedUrl))];
        if customTabConnected {
          var possibleUrls := GetPossibleUrls(webHeads);
          assert possibleUrls == webHeads;
          log := log + [MayLaunch(Request(unShortenedUrl, possibleUrls))];
        } else {
          log := log + [DeferMayLaunch(unShortenedUrl)];
        }
      }
    }

    /** `prepareNextSetOfUrls(reference)`: one `mayLaunchUrl` request unless the working list is empty. */
    method PrepareNextSetOfUrls(reference: string)
      requires Valid()
      modifies this`log
      ensures log == old(log) + PrefetchEffects(NextSet(webHeads, reference))
    {
      var req := SelectNextSetOfUrls(webHeads, reference);
      log := log + PrefetchEffects(req);
    }

    /**
     * `onWebHeadClick`: only when the bubble's unshortened URL is known and
     * not empty, open it, remember the bubble's URL as the last opened one,
     * ask the bubble to close itself if so configured, and prefetch with the
     * opened URL as reference.
     */
    method OnWebHeadClick(url: string, mergeTabs: bool, closeOnOpen: bool)
      requires Valid() && url in webHeads
      modifies this
      ensures Valid()
      ensures webHeads == old(webHeads) && bubbles == old(bubbles)
      ensures customTabConnected == old(customTabConnected)
      ensures var b := old(bubbles)[url];
        if b.unShortenedUrl.Some? && |b.unShortenedUrl.value| != 0 then
          && lastOpenedUrl == url
          && log == old(log) + [OpenTab(b.unShortenedUrl.value, b.fromNewTab || mergeTabs)]
                  + (if closeOnOpen then [DestroyBubble(url, true)] else [])
                  + PrefetchEffects(NextSet(webHeads, url))
                  + [HideRemoveView]
        else
          lastOpenedUrl == old(lastOpenedUrl) && log == old(log)
    {
      var webHead := bubbles[url];
      if webHead.unShortenedUrl.Some? && |webHead.unShortenedUrl.value| != 0 {
        log := log + [OpenTab(webHead.unShortenedUrl.value, webHead.fromNewTab || mergeTabs)];
        lastOpenedUrl := webHead.url;
        if closeOnOpen {
          log := log + [DestroyBubble(webHead.url, true)];
        }
        PrepareNextSetOfUrls(lastOpenedUrl);
        log := log + [HideRemoveView];
      }
    }

    /**
     * `onWebHeadDestroyed`: remove the bubble first; then either the teardown
     * (it was the last bubble) or a prefetch with the removed URL as reference,
     * which, that URL being no longer a key, asks for the whole remaining
     * registry.
     */
    method OnWebHeadDestroyed(url: string, isLastWebHead: bool)
      requires Valid()
      modifies this
      ensures Valid()
      ensures webHeads == Remove(old(webHeads), url) && url !in webHeads
      ensures bubbles == old(bubbles) - {url}
      ensures customTabConnected == old(customTabConnected) && lastOpenedUrl == old(lastOpenedUrl)
      ensures isLastWebHead ==> log == old(log) + [StopService]
      ensures !isLastWebHead ==> log == old(log) + PrefetchEffects(NextSet(webHeads, url))
      ensures !isLastWebHead && webHeads != [] ==>
        log == old(log) + [MayLaunch(Request(webHeads[|webHeads| - 1], webHeads[..|webHeads| - 1]))]
      ensures !isLastWebHead && webHeads == [] ==> log == old(log)
    {
      RemoveKeepsDistinct(webHeads, url);
      webHeads := Remove(webHeads, url);
      bubbles := bubbles - {url};
      if isLastWebHead {
        log := log + [StopService];
      } else {
        PrefetchAfterRemoval(old(webHeads), url);
        PrepareNextSetOfUrls(url);
      }
    }

    /** `destroyAllWebHeads`: ask every bubble, in order, to destroy itself without a callback, then clear the registry. */
    method DestroyAllWebHeads()
      requires Valid()
      modifies this
      ensures Valid()
      ensures webHeads == [] && bubbles == map[]
      ensures customTabConnected == old(customTabConnected) && lastOpenedUrl == old(lastOpenedUrl)
      ensures log == old(log) + DestroyEffects(old(webHeads))
    {
      var i := 0;
      while i < |webHeads|
        invariant 0 <= i <= |webHeads|
        invariant webHeads == old(webHeads) && bubbles == old(bubbles)
        invariant customTabConnected == old(customTabConnected) && lastOpenedUrl == old(lastOpenedUrl)
        invariant log == old(log) + DestroyEffects(webHeads[..i])
      {
        assert webHeads[..i + 1][..i] == webHeads[..i];
        log := log + [DestroyBubble(webHeads[i], false)];
        i := i + 1;
      }
      assert webHeads[..i] == webHeads;
      webHeads := [];
      bubbles := map[];
    }

    /**
     * `onDestroy`: destroy every bubble, cancel the pending page downloads and
     * stop listening to them, then release the custom-tab binding.
     */
    method OnDestroy()
      requires Valid()
      modifies this
      ensures Valid()
      ensures webHeads == [] && bubbles == map[]
      ensures customTabConnected == old(customTabConnected) && lastOpenedUrl == old(lastOpenedUrl)
      ensures log == old(log) + DestroyEffects(old(webHeads))
                     + [CancelDownloads, UnregisterExtractListener, UnbindSession]
    {
      DestroyAllWebHeads();
      log := log + [CancelDownloads, UnregisterExtractListener, UnbindSession];
    }

    /** `onCustomTabsConnected`. */
    method OnCustomTabsConnected()
      requires Valid()
      modifies this`customTabConnected
      ensures Valid()
      ensures customTabConnected
    {
      customTabConnected := true;
    }

    /** `onCustomTabsDisconnected`. */
    method OnCustomTabsDisconnected()
      requires Valid()
      modifies this`customTabConnected
      ensures Valid()
      ensures !customTabConnected
    {
      customTabConnected := false;
    }

    /**
     * The local receiver: a rebind request severs the existing binding and
     * binds again only when its flag is set; a colour is applied to the
     * bubbles only when it is not 0. Neither touches the registry.
     */
    method OnLocalBroadcast(event: LocalBroadcast)
      requires Valid()
      modifies this`log
      ensures Valid()
      ensures event.RebindConnection? ==>
        log == old(log) + (if event.shouldRebind then [UnbindSession, BindSession] else [])
      ensures event.SetWebHeadColor? ==>
        log == old(log) + (if event.color != 0 then [UpdateColors(event.color)] else [])
    {
      match event
      case RebindConnection(shouldRebind) =>
        if shouldRebind {
          log := log + [UnbindSession, BindSession];
        }
      case SetWebHeadColor(color) =>
        if color != 0 {
          log := log + [UpdateColors(color)];
        }
    }

    /** The navigation callback: on `TAB_HIDDEN`, prefetch with the last opened URL as reference, then forget it. */
    method OnNavigationEvent(event: NavigationEvent)
      requires Valid()
      modifies this`log, this`lastOpenedUrl
      ensures Valid()
      ensures event.TabHidden? ==>
        log == old(log) + PrefetchEffects(NextSet(webHeads, old(lastOpenedUrl))) && lastOpenedUrl == ""
      ensures !event.TabHidden? ==> log == old(log) && lastOpenedUrl == old(lastOpenedUrl)
    {
      if event.TabHidden? {
        PrepareNextSetOfUrls(lastOpenedUrl);
        lastOpenedUrl := "";
      }
    }
  }
}
