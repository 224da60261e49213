/** The site's service worker: three named caches, filled, served from and swept. */
module ServiceWorker {
  import opened GoStrings

  /* ---------- requests and routing ---------- */

  /** `href` is the URL a cache files the request under. */
  datatype Url = Url(href: string, protocol: string, pathname: string)
  datatype Request = Request(verb: string, url: Url, mode: string, accept: Option<string>)
  datatype Response = Response(status: nat, body: string)

  /** Which strategy serves a request; ignored requests go to the network untouched. */
  datatype Branch = Ignored | Assets | Pages | Data

  predicate Bypassed(path: string) {
    || Contains(path, "/admin") || HasPrefix(path, "/api/v1/admin") || HasPrefix(path, "/api/v1/member")
    || HasPrefix(path, "/api/v1/account") || HasPrefix(path, "/api/auth") || HasPrefix(path, "/auth")
  }

  const EXTENSIONS := [".png", ".jpg", ".jpeg", ".svg", ".webp", ".gif", ".woff", ".woff2", ".ttf", ".eot"]

  predicate AssetPath(path: string) {
    || HasPrefix(path, "/_next/static/") || HasPrefix(path, "/icons/") || HasPrefix(path, "/images/")
    || exists i :: 0 <= i < |EXTENSIONS| && HasSuffix(path, EXTENSIONS[i])
  }

  function Route(r: Request): Branch {
    if r.verb != "GET" || !HasPrefix(r.url.protocol, "http") || Bypassed(r.url.pathname) then Ignored
    else if AssetPath(r.url.pathname) then Assets
    else if r.mode == "navigate" || (r.accept.Some? && Contains(r.accept.value, "text/html")) then Pages
    else if HasPrefix(r.url.pathname, "/api/v1/public/") then Data
    else Ignored
  }

  datatype Locale = En | De | Th

  function LocaleOf(path: string): Locale {
    if HasPrefix(path, "/en") then En else if HasPrefix(path, "/de") then De else Th
  }

  /* ---------- routing, by the letters of the path ---------- */

  /** `sub` stands somewhere in `s`. */
  predicate StandsIn(s: string, sub: string) {
    exists i :: 0 <= i <= |s| && OccursAt(s, sub, i)
  }

  lemma StandsIff(s: string, sub: string)
    ensures Contains(s, sub) <==> StandsIn(s, sub)
  {
    hide IndexOf;
  }

  /** A GET request over http or https to none of the paths that go to the network untouched. */
  predicate Handled(r: Request) {
    var p := r.url.pathname;
    && r.verb == "GET" && "http" <= r.url.protocol && !StandsIn(p, "/admin") && !("/api/v1/member" <= p)
    && !("/api/v1/account" <= p) && !("/api/auth" <= p) && !("/auth" <= p)
  }

  const IMAGES_AND_FONTS := {"png", "jpg", "jpeg", "svg", "webp", "gif", "woff", "woff2", "ttf", "eot"}

  predicate EndsIn(p: string, extension: string) {
    |p| > |extension| && p[|p| - |extension|..] == extension && p[|p| - |extension| - 1] == '.'
  }

  predicate IsAsset(p: string) {
    || "/_next/static/" <= p || "/icons/" <= p || "/images/" <= p
    || exists extension :: extension in IMAGES_AND_FONTS && EndsIn(p, extension)
  }

  predicate IsPage(r: Request) {
    r.mode == "navigate" || (r.accept.Some? && StandsIn(r.accept.value, "text/html"))
  }

  /** Which requests are served, and how: assets first, then navigations, then public data. */
  lemma RouteIff(r: Request)
    ensures Route(r) == Assets <==> Handled(r) && IsAsset(r.url.pathname)
    ensures Route(r) == Pages <==> Handled(r) && !IsAsset(r.url.pathname) && IsPage(r)
    ensures Route(r) == Data <==>
      Handled(r) && !IsAsset(r.url.pathname) && !IsPage(r) && "/api/v1/public/" <= r.url.pathname
  {
    BypassedIff(r.url.pathname);
    AssetIff(r.url.pathname);
    if r.accept.Some? { StandsIff(r.accept.value, "text/html"); }
    hide Bypassed, AssetPath, IsAsset, Contains, StandsIn;
  }

  lemma BypassedIff(p: string)
    ensures Bypassed(p) <==>
      StandsIn(p, "/admin") || "/api/v1/member" <= p || "/api/v1/account" <= p || "/api/auth" <= p || "/auth" <= p
  {
    StandsIff(p, "/admin");
    hide Contains;
    if "/api/v1/admin" <= p {
      assert p[7..13] == "/api/v1/admin"[7..13] == "/admin";
      assert OccursAt(p, "/admin", 7);
    }
  }

  lemma ExtensionIff(p: string, i: nat)
    requires i < |EXTENSIONS|
    ensures HasSuffix(p, EXTENSIONS[i]) <==> EndsIn(p, EXTENSIONS[i][1..])
    ensures EXTENSIONS[i][1..] in IMAGES_AND_FONTS
  {
    var x := EXTENSIONS[i];
    assert x == ['.'] + x[1..];
    if EndsIn(p, x[1..]) {
      assert p[|p| - |x|..] == [p[|p| - |x|]] + p[|p| - |x| + 1..];
    }
  }

  lemma AssetIff(p: string)
    ensures AssetPath(p) <==> IsAsset(p)
  {
    forall i | 0 <= i < |EXTENSIONS| { ExtensionIff(p, i); }
    if extension :| extension in IMAGES_AND_FONTS && EndsIn(p, extension) {
      var i := ExtensionAt(extension);
      assert HasSuffix(p, EXTENSIONS[i]);
    }
  }

  lemma ExtensionAt(extension: string) returns (i: nat)
    requires extension in IMAGES_AND_FONTS
    ensures i < |EXTENSIONS| && EXTENSIONS[i][1..] == extension
  {
    i := match extension
      case "png" => 0 case "jpg" => 1 case "jpeg" => 2 case "svg" => 3 case "webp" => 4
      case "gif" => 5 case "woff" => 6 case "woff2" => 7 case "ttf" => 8 case _ => 9;
  }

  /* ---------- cache storage ---------- */

  datatype CacheName = StaticCache | PagesCache | AssetsCache | OldCache(name: string)
  datatype Entry = Entry(request: Request, response: Response)

  /** Caches in order of creation, which is the order a search goes through them. */
  datatype Caches = Caches(order: seq<CacheName>, stores: map<CacheName, map<string, Entry>>)

  function OpenCache(c: Caches, name: CacheName): Caches {
    if name in c.stores then c else Caches(c.order + [name], c.stores[name := map[]])
  }

  /** Writing through a handle whose cache was deleted leaves the storage as it is. */
  function PutEntry(c: Caches, name: CacheName, key: string, e: Entry): Caches {
    if name in c.stores then c.(stores := c.stores[name := c.stores[name][key := e]]) else c
  }

  function DeleteCache(c: Caches, name: CacheName): Caches {
    Caches(RemoveName(c.order, name), c.stores - {name})
  }

  function RemoveName(order: seq<CacheName>, name: CacheName): seq<CacheName> {
    if order == [] then []
    else (if order[0] == name then [] else [order[0]]) + RemoveName(order[1..], name)
  }

  predicate Has(c: Caches, name: CacheName, key: string) {
    name in c.stores && key in c.stores[name]
  }

  function MatchIn(c: Caches, name: CacheName, key: string): Option<Response> {
    if Has(c, name, key) then Some(c.stores[name][key].response) else None
  }

  /** The `n`-th cache has the key, and none before it has. */
  predicate FirstHolder(c: Caches, order: seq<CacheName>, n: nat, key: string)
    requires n < |order|
  {
    Has(c, order[n], key) && forall m :: 0 <= m < n ==> !Has(c, order[m], key)
  }

  /** `caches.match`: the first cache, in order, that has the key. */
  function MatchAny(c: Caches, order: seq<CacheName>, key: string): (r: Option<Response>)
    ensures r.None? <==> forall n :: 0 <= n < |order| ==> !Has(c, order[n], key)
    ensures r.Some? ==>
      exists n :: 0 <= n < |order| && FirstHolder(c, order, n, key) && r.value == c.stores[order[n]][key].response
    ensures r.Some? ==> exists name :: MatchIn(c, name, key) == r
  {
    if order == [] then None
    else if MatchIn(c, order[0], key).Some? then MatchIn(c, order[0], key)
    else MatchAny(c, order[1..], key)
  }

  /* ---------- events ---------- */

  /* The install handler and the fetch handler's three strategies fill the caches; the activate handler sweeps
     them. Handlers are asynchronous. Each step below is one that runs without yielding; between two steps of
     one event any other event may step, and the network answers when it likes or not at all. */

  /** What `respondWith` gets. */
  datatype Answer =
    | FromNetwork(response: Response)
    | FromCache(response: Response)
    | NetworkError
    | Offline503
    | Undefined

  /** Where a fetch event stands: the step it takes next, with its local variables. */
  datatype Event =
    | OpenAssets(request: Request)
    | MatchAssets(request: Request)
    | FetchAsset(request: Request, cached: Option<Response>)
    | FetchPage(request: Request)
    | OpenPages(request: Request, response: Response)
    | MatchPage(request: Request)
    | MatchOffline(request: Request)
    | MatchThaiOffline(request: Request)
    | FetchData(request: Request)
    | OpenData(request: Request, response: Response)
    | MatchData(request: Request)
    | Done(request: Request, answer: Answer)

  /** A put that was started and not awaited. */
  datatype Put = Put(name: CacheName, entry: Entry)

  datatype Activation = Inactive | Deleting(stale: set<CacheName>) | Active

  datatype State = State(caches: Caches, activation: Activation, events: map<nat, Event>, puts: seq<Put>,
                         delivered: set<(Request, Response)>)

  datatype Action =
    | Fetch(e: nat, request: Request)
    | Network(e: nat, result: Option<Response>)
    | Continue(e: nat)
    | Commit(p: nat, stored: bool)
    | Install(entries: map<string, Entry>)
    | ListKeys
    | Delete(name: CacheName)
    | Claim

  function First(branch: Branch, r: Request): Option<Event> {
    match branch
    case Ignored => None
    case Assets => Some(OpenAssets(r))
    case Pages => Some(FetchPage(r))
    case Data => Some(FetchData(r))
  }

  predicate Waiting(ev: Event) {
    ev.FetchAsset? || ev.FetchPage? || ev.FetchData?
  }

  /** The event after its fetch settled; `None` is a network failure. */
  function Settled(ev: Event, result: Option<Response>): Event
    requires Waiting(ev)
  {
    var r := ev.request;
    match ev
    case FetchAsset(_, cached) =>
      Done(r, if cached.Some? then FromCache(cached.value)
              else if result.Some? then FromNetwork(result.value)
              else Undefined)
    case FetchPage(_) =>
      if result.None? then MatchPage(r)
      else if result.value.status == 200 then OpenPages(r, result.value) else Done(r, FromNetwork(result.value))
    case FetchData(_) =>
      if result.None? then MatchData(r)
      else if result.value.status == 200 then OpenData(r, result.value) else Done(r, FromNetwork(result.value))
  }

  /** Keys of the offline pages, given by the site's origin. */
  type OfflineKeys = Locale -> string

  /** The event after one step of its own. */
  function Stepped(offline: OfflineKeys, c: Caches, ev: Event): Event {
    var r := ev.request;
    match ev
    case OpenAssets(_) => MatchAssets(r)
    case MatchAssets(_) => FetchAsset(r, MatchIn(c, AssetsCache, r.url.href))
    case OpenPages(_, response) => Done(r, FromNetwork(response))
    case OpenData(_, response) => Done(r, FromNetwork(response))
    case MatchPage(_) =>
      (match MatchAny(c, c.order, r.url.href)
       case Some(found) => Done(r, FromCache(found))
       case None => MatchOffline(r))
    case MatchOffline(_) =>
      (match MatchAny(c, c.order, offline(LocaleOf(r.url.pathname)))
       case Some(found) => Done(r, FromCache(found)) case None => MatchThaiOffline(r))
    case MatchThaiOffline(_) =>
      (match MatchAny(c, c.order, offline(Th))
       case Some(found) => Done(r, FromCache(found))
       case None => Done(r, NetworkError))
    case MatchData(_) =>
      (match MatchAny(c, c.order, r.url.href)
       case Some(found) => Done(r, FromCache(found))
       case None => Done(r, Offline503))
    case _ => ev
  }

  /** The caches after that step: opening creates a missing cache. */
  function CachesAfter(c: Caches, ev: Event): Caches {
    match ev
    case OpenAssets(_) => OpenCache(c, AssetsCache)
    case OpenPages(_, _) => OpenCache(c, PagesCache)
    case OpenData(_, _) => OpenCache(c, AssetsCache)
    case _ => c
  }

  /** The puts an event starts: at once when an asset's fetch succeeds, after opening the cache otherwise. */
  function PutsStarted(ev: Event): seq<Put> {
    match ev
    case OpenPages(r, response) => [Put(PagesCache, Entry(r, response))]
    case OpenData(r, response) => [Put(AssetsCache, Entry(r, response))]
    case _ => []
  }

  function AssetPuts(ev: Event, result: Option<Response>): seq<Put> {
    if ev.FetchAsset? && result.Some? && result.value.status == 200
    then [Put(AssetsCache, Entry(ev.request, result.value))] else []
  }

  predicate Current(name: CacheName) {
    !name.OldCache?
  }

  function Without(puts: seq<Put>, p: nat): seq<Put>
    requires p < |puts|
  {
    puts[..p] + puts[p + 1..]
  }

  function Step(route: Request -> Branch, offline: OfflineKeys, s: State, a: Action): State {
    match a
    case Fetch(e, request) =>
      (match First(route(request), request)
       case None => s
       case Some(ev) => if e in s.events then s else s.(events := s.events[e := ev]))
    case Network(e, result) =>
      if e !in s.events || !Waiting(s.events[e]) then s
      else
        var ev := s.events[e];
        s.(events := s.events[e := Settled(ev, result)], puts := s.puts + AssetPuts(ev, result),
           delivered := if result.Some? then s.delivered + {(ev.request, result.value)} else s.delivered)
    case Continue(e) =>
      if e !in s.events then s
      else
        var ev := s.events[e];
        s.(events := s.events[e := Stepped(offline, s.caches, ev)], caches := CachesAfter(s.caches, ev),
           puts := s.puts + PutsStarted(ev))
    case Commit(p, stored) =>
      if p >= |s.puts| then s
      else
        var put := s.puts[p];
        s.(puts := Without(s.puts, p),
           caches := if stored then PutEntry(s.caches, put.name, put.entry.request.url.href, put.entry) else s.caches)
    case Install(entries) =>
      var c := OpenCache(s.caches, StaticCache);
      s.(caches := c.(stores := c.stores[StaticCache := c.stores[StaticCache] + entries]))
    case ListKeys =>
      if s.activation.Inactive? then s.(activation := Deleting(set n | n in s.caches.stores.Keys && !Current(n))) else s
    case Delete(name) =>
      if s.activation.Deleting? && name in s.activation.stale
      then s.(caches := DeleteCache(s.caches, name), activation := Deleting(s.activation.stale - {name}))
      else s
    case Claim =>
      if s.activation == Deleting({}) then s.(activation := Active) else s
  }

  /** A run of a freshly started worker over whatever caches its predecessors left. */
  ghost predicate IsRun(route: Request -> Branch, offline: OfflineKeys, tr: seq<State>, acts: seq<Action>) {
    && |tr| == |acts| + 1
    && tr[0].events == map[] && tr[0].puts == [] && tr[0].delivered == {} && tr[0].activation == Inactive
    && forall i :: 0 <= i < |acts| ==> tr[i + 1] == Step(route, offline, tr[i], acts[i])
  }

  /* ---------- what the caches hold ---------- */

  /** The cache a branch writes to. */
  predicate WritesTo(branch: Branch, name: CacheName) {
    (branch == Pages && name == PagesCache) || ((branch == Assets || branch == Data) && name == AssetsCache)
  }

  /** A 200 response the network delivered for a request this cache is meant for. */
  predicate Delivered(route: Request -> Branch, s: State, name: CacheName, e: Entry) {
    WritesTo(route(e.request), name) && e.response.status == 200 && (e.request, e.response) in s.delivered
  }

  /** The response an event holds was delivered for its request. */
  predicate EventSound(route: Request -> Branch, s: State, ev: Event) {
    && (ev.OpenAssets? || ev.MatchAssets? || ev.FetchAsset? ==> route(ev.request) == Assets)
    && (ev.FetchPage? || ev.OpenPages? || ev.MatchPage? || ev.MatchOffline? || ev.MatchThaiOffline?
        ==> route(ev.request) == Pages)
    && (ev.FetchData? || ev.OpenData? || ev.MatchData? ==> route(ev.request) == Data)
    && (ev.OpenPages? || ev.OpenData? ==> ev.response.status == 200 && (ev.request, ev.response) in s.delivered)
    && (ev.Done? ==> route(ev.request) != Ignored)
    && (ev.Done? && ev.answer.FromNetwork? ==> (ev.request, ev.answer.response) in s.delivered)
    && (ev.Done? && route(ev.request) == Pages ==> !ev.answer.Undefined? && !ev.answer.Offline503?)
    && (ev.Done? && route(ev.request) == Data ==> !ev.answer.Undefined? && !ev.answer.NetworkError?)
    && (ev.Done? && route(ev.request) == Assets ==> !ev.answer.NetworkError? && !ev.answer.Offline503?)
  }

  /** The invariant of a run that started from `initial`. */
  ghost predicate Sound(route: Request -> Branch, initial: Caches, s: State) {
    && (forall e :: e in s.events ==> EventSound(route, s, s.events[e]))
    && (forall p :: 0 <= p < |s.puts| ==> Delivered(route, s, s.puts[p].name, s.puts[p].entry))
    && (forall name, key :: name in s.caches.stores && key in s.caches.stores[name] && name != StaticCache ==>
          EntrySound(route, initial, s, name, key))
  }

  /** An entry was there at the start, or the fetch handler filed a delivered response under its request's URL. */
  ghost predicate EntrySound(route: Request -> Branch, initial: Caches, s: State, name: CacheName, key: string)
    requires name in s.caches.stores && key in s.caches.stores[name]
  {
    var e := s.caches.stores[name][key];
    || (name in initial.stores && key in initial.stores[name] && initial.stores[name][key] == e)
    || (key == e.request.url.href && Delivered(route, s, name, e))
  }

  lemma StepKeepsSound(route: Request -> Branch, offline: OfflineKeys, initial: Caches, s: State, a: Action)
    requires Sound(route, initial, s)
    ensures Sound(route, initial, Step(route, offline, s, a))
  {
    var t := Step(route, offline, s, a);
    assert s.delivered <= t.delivered;
    EventsStaySound(route, offline, initial, s, a);
    PutsStaySound(route, offline, initial, s, a);
    EntriesStaySound(route, offline, initial, s, a);
  }

  lemma EventsStaySound(route: Request -> Branch, offline: OfflineKeys, initial: Caches, s: State, a: Action)
    requires Sound(route, initial, s)
    ensures var t := Step(route, offline, s, a); forall e :: e in t.events ==> EventSound(route, t, t.events[e])
  {}

  lemma PutsStaySound(route: Request -> Branch, offline: OfflineKeys, initial: Caches, s: State, a: Action)
    requires Sound(route, initial, s)
    ensures var t := Step(route, offline, s, a);
      forall p :: 0 <= p < |t.puts| ==> Delivered(route, t, t.puts[p].name, t.puts[p].entry)
  {}

  /** An entry after a step was there before, or is what a finished put files. */
  lemma StepEntry(route: Request -> Branch, offline: OfflineKeys, s: State, a: Action, name: CacheName, key: string)
    requires var t := Step(route, offline, s, a); name in t.caches.stores && key in t.caches.stores[name]
    requires name != StaticCache
    ensures var e := Step(route, offline, s, a).caches.stores[name][key];
      || (name in s.caches.stores && key in s.caches.stores[name] && s.caches.stores[name][key] == e)
      || (a.Commit? && a.p < |s.puts| && s.puts[a.p] == Put(name, e) && key == e.request.url.href)
  {
    hide Settled, Stepped, PutsStarted, AssetPuts, Without, First;
  }

  lemma EntriesStaySound(route: Request -> Branch, offline: OfflineKeys, initial: Caches, s: State, a: Action)
    requires Sound(route, initial, s)
    ensures var t := Step(route, offline, s, a);
      forall name, key :: name in t.caches.stores && key in t.caches.stores[name] && name != StaticCache ==>
        EntrySound(route, initial, t, name, key)
  {
    var t := Step(route, offline, s, a);
    assert s.delivered <= t.delivered;
    forall name, key | name in t.caches.stores && key in t.caches.stores[name] && name != StaticCache
      ensures EntrySound(route, initial, t, name, key)
    {
      hide Step, EventSound, WritesTo;
      StepEntry(route, offline, s, a, name, key);
      if !(a.Commit? && a.p < |s.puts| && s.puts[a.p] == Put(name, t.caches.stores[name][key])) {
        assert EntrySound(route, initial, s, name, key);
      }
    }
  }

  lemma {:induction false} RunIsSound(route: Request -> Branch, offline: OfflineKeys, tr: seq<State>,
                                      acts: seq<Action>, i: nat)
    requires IsRun(route, offline, tr, acts) && i < |tr|
    ensures Sound(route, tr[0].caches, tr[i])
    decreases i
  {
    hide Step, EventSound, Delivered;
    if i > 0 {
      RunIsSound(route, offline, tr, acts, i - 1);
      assert tr[i - 1 + 1] == Step(route, offline, tr[i - 1], acts[i - 1]);
      StepKeepsSound(route, offline, tr[0].caches, tr[i - 1], acts[i - 1]);
    }
  }

  lemma RouteServes(r: Request)
    requires Route(r) != Ignored
    ensures r.verb == "GET" && HasPrefix(r.url.protocol, "http") && !Bypassed(r.url.pathname)
  {}

  /** Over every run, every entry outside the precache that was not there at the start is filed under the
      URL of a GET request over http that matches none of the bypassed paths, and holds a response with
      status 200 that the network delivered for that very request; navigations are filed among the pages
      and everything else among the assets. */
  lemma CachedEntriesAreDelivered(offline: OfflineKeys, tr: seq<State>, acts: seq<Action>, i: nat, name: CacheName,
                                  key: string)
    requires IsRun(Route, offline, tr, acts) && i < |tr| && name != StaticCache
    requires name in tr[i].caches.stores && key in tr[i].caches.stores[name]
    ensures var initial, e := tr[0].caches, tr[i].caches.stores[name][key];
      || (name in initial.stores && key in initial.stores[name] && initial.stores[name][key] == e)
      || (&& key == e.request.url.href && e.request.verb == "GET" && HasPrefix(e.request.url.protocol, "http")
          && !Bypassed(e.request.url.pathname) && e.response.status == 200
          && (e.request, e.response) in tr[i].delivered
          && name == if Route(e.request) == Pages then PagesCache else AssetsCache)
  {
    RunIsSound(Route, offline, tr, acts, i);
    assert EntrySound(Route, tr[0].caches, tr[i], name, key);
    var e := tr[i].caches.stores[name][key];
    if Route(e.request) != Ignored {
      RouteServes(e.request);
    }
  }

  /** A navigation or public-data request that the worker finished got a response: the network's, one from
      a cache, the network-error response, or the offline one. Only an asset can get none. And no bypassed
      request is ever the worker's. */
  lemma AnswersAreResponses(offline: OfflineKeys, tr: seq<State>, acts: seq<Action>, i: nat, e: nat)
    requires IsRun(Route, offline, tr, acts) && i < |tr| && e in tr[i].events
    ensures var r := tr[i].events[e].request; !Bypassed(r.url.pathname) && Route(r) != Ignored
    ensures tr[i].events[e].Done? && tr[i].events[e].answer.Undefined? ==> Route(tr[i].events[e].request) == Assets
    ensures tr[i].events[e].Done? && tr[i].events[e].answer.Offline503? ==> Route(tr[i].events[e].request) == Data
    ensures tr[i].events[e].Done? && tr[i].events[e].answer.NetworkError? ==> Route(tr[i].events[e].request) == Pages
    ensures tr[i].events[e].Done? && tr[i].events[e].answer.FromNetwork?
      ==> (tr[i].events[e].request, tr[i].events[e].answer.response) in tr[i].delivered
  {
    RunIsSound(Route, offline, tr, acts, i);
    assert EventSound(Route, tr[i], tr[i].events[e]);
    RouteServes(tr[i].events[e].request);
  }

  /** The step at which event `e` looked its asset up. */
  ghost predicate LookedUp(tr: seq<State>, acts: seq<Action>, j: nat, e: nat, request: Request) {
    j < |acts| && j < |tr| && e in tr[j].events && tr[j].events[e] == MatchAssets(request) && acts[j] == Continue(e)
  }

  /** The step at which the fetch of event `e` settled. */
  ghost predicate SettledAt(tr: seq<State>, acts: seq<Action>, k: nat, e: nat, request: Request) {
    k < |acts| && k < |tr| && e in tr[k].events && Waiting(tr[k].events[e]) && tr[k].events[e].request == request
    && acts[k].Network? && acts[k].e == e
  }

  /** One step leaves an event alone, or is its own. */
  lemma EventStep(route: Request -> Branch, offline: OfflineKeys, tr: seq<State>, acts: seq<Action>, i: nat, e: nat)
    requires IsRun(route, offline, tr, acts) && 0 < i < |tr| && e in tr[i].events
    ensures var s, ev := tr[i - 1], tr[i].events[e];
      || (e in s.events && s.events[e] == ev)
      || (e !in s.events && First(route(ev.request), ev.request) == Some(ev))
      || (e in s.events && acts[i - 1] == Continue(e) && ev == Stepped(offline, s.caches, s.events[e]))
      || (e in s.events && acts[i - 1].Network? && acts[i - 1].e == e && Waiting(s.events[e])
          && ev == Settled(s.events[e], acts[i - 1].result))
  {
    assert tr[i - 1 + 1] == Step(route, offline, tr[i - 1], acts[i - 1]);
    hide Settled, Stepped, CachesAfter, PutsStarted, AssetPuts, Without, OpenCache, PutEntry, DeleteCache;
    var a := acts[i - 1];
    if a.Fetch? && a.e == e && e !in tr[i - 1].events {
      FirstKeepsRequest(route(a.request), a.request);
    }
  }

  lemma FirstKeepsRequest(branch: Branch, r: Request)
    ensures First(branch, r).Some? ==> First(branch, r).value.request == r
  {}

  lemma {:induction false} LookupOrigin(route: Request -> Branch, offline: OfflineKeys, tr: seq<State>,
                                        acts: seq<Action>, i: nat, e: nat) returns (j: nat)
    requires IsRun(route, offline, tr, acts) && i < |tr| && e in tr[i].events && tr[i].events[e].FetchAsset?
    ensures var r := tr[i].events[e].request;
      j < i && LookedUp(tr, acts, j, e, r) && tr[i].events[e].cached == MatchIn(tr[j].caches, AssetsCache, r.url.href)
    decreases i
  {
    assert i > 0;
    EventStep(route, offline, tr, acts, i, e);
    hide IsRun, Step, MatchIn, MatchAny;
    if e in tr[i - 1].events && tr[i - 1].events[e] == tr[i].events[e] {
      j := LookupOrigin(route, offline, tr, acts, i - 1, e);
    } else {
      j := i - 1;
    }
  }

  /** A finished asset event was looked up at some step and its fetch settled at some later one; these two
      decide its answer: the entry found at the lookup, else the network's response, else nothing. */
  lemma {:induction false} AssetAnswer(route: Request -> Branch, offline: OfflineKeys, tr: seq<State>,
                                       acts: seq<Action>, i: nat, e: nat) returns (j: nat, k: nat)
    requires IsRun(route, offline, tr, acts) && i < |tr| && e in tr[i].events
    requires tr[i].events[e].Done? && route(tr[i].events[e].request) == Assets
    ensures var r := tr[i].events[e].request;
      && j < k < i && LookedUp(tr, acts, j, e, r) && SettledAt(tr, acts, k, e, r)
      && var result := acts[k].result;
         tr[i].events[e].answer ==
           if Has(tr[j].caches, AssetsCache, r.url.href)
           then FromCache(tr[j].caches.stores[AssetsCache][r.url.href].response)
           else if result.Some? then FromNetwork(result.value)
           else Undefined
    decreases i
  {
    assert i > 0;
    EventStep(route, offline, tr, acts, i, e);
    RunIsSound(route, offline, tr, acts, i - 1);
    assert e in tr[i - 1].events ==> EventSound(route, tr[i - 1], tr[i - 1].events[e]);
    hide IsRun, Step, MatchIn, MatchAny, Sound;
    if e in tr[i - 1].events && tr[i - 1].events[e] == tr[i].events[e] {
      j, k := AssetAnswer(route, offline, tr, acts, i - 1, e);
    } else {
      assert tr[i - 1].events[e].FetchAsset?;
      j := LookupOrigin(route, offline, tr, acts, i - 1, e);
      k := i - 1;
    }
  }

  /** An asset request is answered with nothing exactly when it was not in the assets cache at its lookup and
      its fetch failed. */
  lemma AssetUnansweredIff(offline: OfflineKeys, tr: seq<State>, acts: seq<Action>, i: nat, e: nat)
    returns (j: nat, k: nat)
    requires IsRun(Route, offline, tr, acts) && i < |tr| && e in tr[i].events
    requires tr[i].events[e].Done? && Route(tr[i].events[e].request) == Assets
    ensures var r := tr[i].events[e].request;
      && j < k < i && LookedUp(tr, acts, j, e, r) && SettledAt(tr, acts, k, e, r)
      && (tr[i].events[e].answer.Undefined? <==>
            !Has(tr[j].caches, AssetsCache, r.url.href) && acts[k].result.None?)
  {
    hide IsRun, Route, MatchIn;
    j, k := AssetAnswer(Route, offline, tr, acts, i, e);
  }

  /** Opening the assets cache reveals nothing new. */
  lemma OpenKeepsMatches(c: Caches, name: CacheName, key: string)
    ensures MatchIn(OpenCache(c, name), name, key) == MatchIn(c, name, key)
  {}

  function UnansweredActions(r: Request): seq<Action> {
    [Fetch(0, r), Continue(0), Continue(0), Network(0, None)]
  }

  /** It happens: from any caches that do not hold an asset, requesting it without a network ends unanswered. */
  lemma AssetCanBeUnanswered(offline: OfflineKeys, initial: Caches, r: Request) returns (tr: seq<State>)
    requires Route(r) == Assets && !Has(initial, AssetsCache, r.url.href)
    ensures IsRun(Route, offline, tr, UnansweredActions(r)) && tr[0].caches == initial
    ensures |tr| == 5 && 0 in tr[4].events && tr[4].events[0] == Done(r, Undefined)
  {
    hide Route, OpenCache;
    OpenKeepsMatches(initial, AssetsCache, r.url.href);
    var acts := UnansweredActions(r);
    var s0 := State(initial, Inactive, map[], [], {});
    var s1 := Step(Route, offline, s0, acts[0]);
    assert s1.events == map[0 := OpenAssets(r)] && s1.caches == initial;
    var s2 := Step(Route, offline, s1, acts[1]);
    assert s2.events == map[0 := MatchAssets(r)] && s2.caches == OpenCache(initial, AssetsCache);
    var s3 := Step(Route, offline, s2, acts[2]);
    assert s3.events == map[0 := FetchAsset(r, None)];
    var s4 := Step(Route, offline, s3, acts[3]);
    tr := [s0, s1, s2, s3, s4];
  }

  const ICONS := Request("GET", Url("https://wat.example/icons/", "https:", "/icons/"), "no-cors", None)

  /** There are such requests. */
  lemma IconsAreAssets()
    ensures Route(ICONS) == Assets
  {
    var path := "/icons/";
    forall j | 0 <= j <= |path| ensures !OccursAt(path, "/admin", j) {
      if j + 6 <= |path| { assert path[j..j + 6][1] == path[j + 1]; }
    }
    hide IndexOf;
    assert !Contains(path, "/admin");
    assert path[1] == 'i';
  }

  /** A step of event `e`'s own. */
  ghost predicate OwnStep(acts: seq<Action>, j: nat, e: nat) {
    j < |acts| && acts[j] == Continue(e)
  }

  /** What the caches of a state hold under `key`, the oldest cache first. */
  function Search(s: State, key: string): Option<Response> {
    MatchAny(s.caches, s.caches.order, key)
  }

  /** The language of the offline page, by the beginning of the path. */
  function OfflineKey(offline: OfflineKeys, path: string): string {
    offline(if "/en" <= path then En else if "/de" <= path then De else Th)
  }

  lemma LanguageOf(path: string)
    ensures LocaleOf(path) == if "/en" <= path then En else if "/de" <= path then De else Th
  {}

  /** How far a navigation has come by step `i`: its fetch settled at `k`, and the searches for the page
      itself and for the offline page of its language failed at `j1` and `j2`. */
  ghost predicate PageSoFar(offline: OfflineKeys, tr: seq<State>, acts: seq<Action>, i: nat, e: nat, k: nat, j1: nat,
                            j2: nat, j3: nat)
    requires i < |tr| && e in tr[i].events
  {
    var r := tr[i].events[e].request;
    match tr[i].events[e]
    case FetchPage(_) => true
    case OpenPages(_, response) => k < i && SettledAt(tr, acts, k, e, r) && acts[k].result == Some(response)
    case MatchPage(_) => FetchFailed(tr, acts, i, e, r, k)
    case MatchOffline(_) => FetchFailed(tr, acts, i, e, r, k) && Missed(tr, acts, k, j1, i, e, r.url.href)
    case MatchThaiOffline(_) =>
      FetchFailed(tr, acts, i, e, r, k) && Missed(tr, acts, k, j1, i, e, r.url.href)
      && Missed(tr, acts, j1, j2, i, e, OfflineKey(offline, r.url.pathname))
    case Done(_, answer) => PageAnswered(offline, tr, acts, i, e, r, answer, k, j1, j2, j3)
    case _ => false
  }

  ghost predicate FetchFailed(tr: seq<State>, acts: seq<Action>, i: nat, e: nat, r: Request, k: nat) {
    k < i && SettledAt(tr, acts, k, e, r) && acts[k].result.None?
  }

  /** Between `from` and `to` event `e` searched the caches at step `j` and found nothing. */
  ghost predicate Missed(tr: seq<State>, acts: seq<Action>, from: nat, j: nat, to: nat, e: nat, key: string) {
    from < j < to && j < |tr| && OwnStep(acts, j, e) && Search(tr[j], key).None?
  }

  ghost predicate FoundAt(tr: seq<State>, acts: seq<Action>, from: nat, j: nat, to: nat, e: nat, key: string,
                          answer: Answer)
  {
    from < j < to && j < |tr| && OwnStep(acts, j, e) && Search(tr[j], key).Some?
    && answer == FromCache(Search(tr[j], key).value)
  }

  /** The answer of a navigation whose fetch settled at `k`: the network's response whatever its status;
      after a failure what was found at `j1` under the request's own URL, else at `j2` under the offline page
      of the language the path begins with, else at `j3` under the Thai one, else the network error. */
  ghost predicate PageAnswered(offline: OfflineKeys, tr: seq<State>, acts: seq<Action>, i: nat, e: nat, r: Request,
                               answer: Answer, k: nat, j1: nat, j2: nat, j3: nat)
  {
    var href, local, thai := r.url.href, OfflineKey(offline, r.url.pathname), offline(Th);
    && k < i && SettledAt(tr, acts, k, e, r)
    && match acts[k].result
       case Some(response) => answer == FromNetwork(response)
       case None =>
         || FoundAt(tr, acts, k, j1, i, e, href, answer)
         || (Missed(tr, acts, k, j1, i, e, href)
             && (|| FoundAt(tr, acts, j1, j2, i, e, local, answer)
                 || (Missed(tr, acts, j1, j2, i, e, local)
                     && (|| FoundAt(tr, acts, j2, j3, i, e, thai, answer)
                         || (Missed(tr, acts, j2, j3, i, e, thai) && answer == NetworkError)))))
  }

  lemma KeepsRequest(route: Request -> Branch, offline: OfflineKeys, tr: seq<State>, acts: seq<Action>, i: nat, e: nat)
    requires IsRun(route, offline, tr, acts) && 0 < i < |tr| && e in tr[i - 1].events
    ensures e in tr[i].events && tr[i].events[e].request == tr[i - 1].events[e].request
  {
    assert tr[i - 1 + 1] == Step(route, offline, tr[i - 1], acts[i - 1]);
    EventsProgress(route, offline, tr[i - 1], e, acts[i - 1]);
  }

  lemma PageStarts(offline: OfflineKeys, tr: seq<State>, acts: seq<Action>, i: nat, e: nat)
    requires i < |tr| && e in tr[i].events && First(Pages, tr[i].events[e].request) == Some(tr[i].events[e])
    ensures PageSoFar(offline, tr, acts, i, e, 0, 0, 0, 0)
  {}

  lemma PageWaits(offline: OfflineKeys, tr: seq<State>, acts: seq<Action>, i: nat, e: nat, k: nat, j1: nat, j2: nat,
                  j3: nat)
    requires i < |tr| && e in tr[i].events && Waiting(tr[i].events[e])
    requires PageSoFar(offline, tr, acts, i, e, k, j1, j2, j3)
    ensures tr[i].events[e].FetchPage?
  {}

  lemma PageStays(offline: OfflineKeys, tr: seq<State>, acts: seq<Action>, i: nat, e: nat, k: nat, j1: nat, j2: nat,
                  j3: nat)
    requires 0 < i < |tr| && e in tr[i - 1].events && e in tr[i].events && tr[i].events[e] == tr[i - 1].events[e]
    requires PageSoFar(offline, tr, acts, i - 1, e, k, j1, j2, j3)
    ensures PageSoFar(offline, tr, acts, i, e, k, j1, j2, j3)
  {
    hide SettledAt, Search, OwnStep;
  }

  /** A settled fetch. */
  lemma PageSettles(offline: OfflineKeys, tr: seq<State>, acts: seq<Action>, i: nat, e: nat)
    requires 0 < i < |tr| && e in tr[i - 1].events && e in tr[i].events && tr[i - 1].events[e].FetchPage?
    requires SettledAt(tr, acts, i - 1, e, tr[i - 1].events[e].request)
    requires tr[i].events[e] == Settled(tr[i - 1].events[e], acts[i - 1].result)
    ensures PageSoFar(offline, tr, acts, i, e, i - 1, 0, 0, 0)
  {
    hide SettledAt, Search;
  }

  /** An own step of a navigation whose fetch has settled. */
  lemma PageMoves(offline: OfflineKeys, tr: seq<State>, acts: seq<Action>, i: nat, e: nat, k: nat, j1: nat, j2: nat,
                  j3: nat) returns (k1: nat, k2: nat, k3: nat)
    requires 0 < i < |tr| && e in tr[i - 1].events && e in tr[i].events && OwnStep(acts, i - 1, e)
    requires tr[i].events[e] == Stepped(offline, tr[i - 1].caches, tr[i - 1].events[e])
    requires PageSoFar(offline, tr, acts, i - 1, e, k, j1, j2, j3)
    ensures PageSoFar(offline, tr, acts, i, e, k, k1, k2, k3)
  {
    hide SettledAt, MatchAny, OwnStep, LocaleOf;
    LanguageOf(tr[i - 1].events[e].request.url.pathname);
    k1, k2, k3 := j1, j2, j3;
    match tr[i - 1].events[e]
    case MatchPage(_) => k1 := i - 1;
    case MatchOffline(_) => k2 := i - 1;
    case MatchThaiOffline(_) => k3 := i - 1;
    case _ =>
  }

  lemma {:induction false} PageHistory(route: Request -> Branch, offline: OfflineKeys, tr: seq<State>,
                                       acts: seq<Action>, i: nat, e: nat) returns (k: nat, j1: nat, j2: nat, j3: nat)
    requires IsRun(route, offline, tr, acts) && i < |tr| && e in tr[i].events
    requires route(tr[i].events[e].request) == Pages
    ensures PageSoFar(offline, tr, acts, i, e, k, j1, j2, j3)
    decreases i
  {
    assert i > 0;
    EventStep(route, offline, tr, acts, i, e);
    if e in tr[i - 1].events { KeepsRequest(route, offline, tr, acts, i, e); }
    hide IsRun, Step, PageSoFar, Settled, Stepped;
    if e !in tr[i - 1].events {
      k, j1, j2, j3 := 0, 0, 0, 0;
      PageStarts(offline, tr, acts, i, e);
    } else {
      k, j1, j2, j3 := PageHistory(route, offline, tr, acts, i - 1, e);
      if tr[i - 1].events[e] == tr[i].events[e] {
        PageStays(offline, tr, acts, i, e, k, j1, j2, j3);
      } else if acts[i - 1] == Continue(e) {
        j1, j2, j3 := PageMoves(offline, tr, acts, i, e, k, j1, j2, j3);
      } else {
        PageWaits(offline, tr, acts, i - 1, e, k, j1, j2, j3);
        PageSettles(offline, tr, acts, i, e);
        k, j1, j2, j3 := i - 1, 0, 0, 0;
      }
    }
  }

  /** Network first: a finished navigation is answered as `PageAnswered` says, in every run. */
  lemma PageAnswer(offline: OfflineKeys, tr: seq<State>, acts: seq<Action>, i: nat, e: nat)
    returns (k: nat, j1: nat, j2: nat, j3: nat)
    requires IsRun(Route, offline, tr, acts) && i < |tr| && e in tr[i].events
    requires tr[i].events[e].Done? && Route(tr[i].events[e].request) == Pages
    ensures PageAnswered(offline, tr, acts, i, e, tr[i].events[e].request, tr[i].events[e].answer, k, j1, j2, j3)
  {
    hide IsRun, Route, PageAnswered;
    k, j1, j2, j3 := PageHistory(Route, offline, tr, acts, i, e);
  }

  /** The answer of a public-data request whose fetch settled at `k`: the network's response whatever its
      status; after a failure what was found at `j` under its URL, else the offline response. */
  ghost predicate DataAnswered(tr: seq<State>, acts: seq<Action>, i: nat, e: nat, r: Request, answer: Answer, k: nat,
                               j: nat)
  {
    && k < i && SettledAt(tr, acts, k, e, r)
    && match acts[k].result
       case Some(response) => answer == FromNetwork(response)
       case None =>
         || FoundAt(tr, acts, k, j, i, e, r.url.href, answer)
         || (Missed(tr, acts, k, j, i, e, r.url.href) && answer == Offline503)
  }

  ghost predicate DataSoFar(tr: seq<State>, acts: seq<Action>, i: nat, e: nat, k: nat, j: nat)
    requires i < |tr| && e in tr[i].events
  {
    var r := tr[i].events[e].request;
    match tr[i].events[e]
    case FetchData(_) => true
    case OpenData(_, response) => k < i && SettledAt(tr, acts, k, e, r) && acts[k].result == Some(response)
    case MatchData(_) => FetchFailed(tr, acts, i, e, r, k)
    case Done(_, answer) => DataAnswered(tr, acts, i, e, r, answer, k, j)
    case _ => false
  }

  lemma {:induction false} DataHistory(route: Request -> Branch, offline: OfflineKeys, tr: seq<State>,
                                       acts: seq<Action>, i: nat, e: nat) returns (k: nat, j: nat)
    requires IsRun(route, offline, tr, acts) && i < |tr| && e in tr[i].events
    requires route(tr[i].events[e].request) == Data
    ensures DataSoFar(tr, acts, i, e, k, j)
    decreases i
  {
    assert i > 0;
    EventStep(route, offline, tr, acts, i, e);
    RunIsSound(route, offline, tr, acts, i - 1);
    assert e in tr[i - 1].events ==> EventSound(route, tr[i - 1], tr[i - 1].events[e]);
    hide IsRun, Step, MatchIn, MatchAny, Sound;
    k, j := 0, 0;
    if e in tr[i - 1].events && tr[i - 1].events[e].request == tr[i].events[e].request {
      k, j := DataHistory(route, offline, tr, acts, i - 1, e);
      if tr[i - 1].events[e] != tr[i].events[e] {
        match tr[i - 1].events[e]
        case FetchData(_) => k := i - 1;
        case MatchData(_) => j := i - 1;
        case _ =>
      }
    }
  }

  /** Network first for public data, in every run. */
  lemma DataAnswer(offline: OfflineKeys, tr: seq<State>, acts: seq<Action>, i: nat, e: nat) returns (k: nat, j: nat)
    requires IsRun(Route, offline, tr, acts) && i < |tr| && e in tr[i].events
    requires tr[i].events[e].Done? && Route(tr[i].events[e].request) == Data
    ensures DataAnswered(tr, acts, i, e, tr[i].events[e].request, tr[i].events[e].answer, k, j)
  {
    hide IsRun, Route, DataAnswered;
    k, j := DataHistory(Route, offline, tr, acts, i, e);
  }

  /* ---------- what gets cached ---------- */

  /** A successful response to an asset is put at once, any other never. */
  lemma AssetIsPut(offline: OfflineKeys, tr: seq<State>, acts: seq<Action>, k: nat, e: nat, response: Response)
    requires IsRun(Route, offline, tr, acts) && k < |acts| && acts[k] == Network(e, Some(response))
    requires e in tr[k].events && tr[k].events[e].FetchAsset?
    ensures tr[k + 1].puts == tr[k].puts +
      if response.status == 200 then [Put(AssetsCache, Entry(tr[k].events[e].request, response))] else []
  {
    hide Route;
  }

  /** A navigation answered by a successful response of the network has put it among the pages, and public data
      among the assets. */
  lemma {:induction false} ResponseIsPut(offline: OfflineKeys, tr: seq<State>, acts: seq<Action>, i: nat, e: nat,
                                         response: Response) returns (j: nat)
    requires IsRun(Route, offline, tr, acts) && i < |tr| && e in tr[i].events
    requires tr[i].events[e].Done? && tr[i].events[e].answer == FromNetwork(response) && response.status == 200
    requires Route(tr[i].events[e].request) in {Pages, Data}
    ensures var r := tr[i].events[e].request;
      var name := if Route(r) == Pages then PagesCache else AssetsCache;
      && j < i && OwnStep(acts, j, e) && j + 1 < |tr| && name in tr[j + 1].caches.stores
      && tr[j + 1].puts == tr[j].puts + [Put(name, Entry(r, response))]
    decreases i
  {
    hide *;
    assert i > 0 by { NoEventsAtFirst(offline, tr, acts, e); }
    if e in tr[i - 1].events && tr[i - 1].events[e] == tr[i].events[e] {
      j := ResponseIsPut(offline, tr, acts, i - 1, e, response);
    } else {
      j := i - 1;
      LastStep(offline, tr, acts, i, e, response);
      OpenPuts(Route, offline, tr[j], e);
    }
  }

  lemma NoEventsAtFirst(offline: OfflineKeys, tr: seq<State>, acts: seq<Action>, e: nat)
    requires IsRun(Route, offline, tr, acts)
    ensures e !in tr[0].events
  {}

  /** The step at which the network's successful response became the answer. */
  lemma LastStep(offline: OfflineKeys, tr: seq<State>, acts: seq<Action>, i: nat, e: nat, response: Response)
    requires IsRun(Route, offline, tr, acts) && 0 < i < |tr| && e in tr[i].events
    requires tr[i].events[e].Done? && tr[i].events[e].answer == FromNetwork(response) && response.status == 200
    requires Route(tr[i].events[e].request) in {Pages, Data}
    requires e in tr[i - 1].events ==> tr[i - 1].events[e] != tr[i].events[e]
    ensures OwnStep(acts, i - 1, e) && tr[i] == Step(Route, offline, tr[i - 1], Continue(e)) && e in tr[i - 1].events
    ensures var ev, r := tr[i - 1].events[e], tr[i].events[e].request;
      && ev.request == r && (ev.OpenPages? || ev.OpenData?) && ev.response == response
      && (ev.OpenPages? <==> Route(r) == Pages)
  {
    EventStep(Route, offline, tr, acts, i, e);
    RunIsSound(Route, offline, tr, acts, i - 1);
    assert e in tr[i - 1].events ==> EventSound(Route, tr[i - 1], tr[i - 1].events[e]);
    assert tr[i - 1 + 1] == Step(Route, offline, tr[i - 1], acts[i - 1]);
    hide IsRun, MatchAny, Sound, Route, Step, Settled, Stepped;
    StartedNotDone(tr[i].events[e].request);
    NetworkAnswerFrom(offline, tr[i - 1].caches, tr[i - 1].events[e], acts[i - 1], tr[i].events[e].request, response);
  }

  lemma StartedNotDone(r: Request)
    ensures First(Route(r), r).Some? ==> !First(Route(r), r).value.Done?
  {
    hide Route;
  }

  /** Only an event that has opened its cache, or an asset, ends with a successful response of the network. */
  lemma NetworkAnswerFrom(offline: OfflineKeys, c: Caches, ev: Event, a: Action, r: Request, response: Response)
    requires response.status == 200
    requires (Stepped(offline, c, ev) == Done(r, FromNetwork(response)) && !ev.Done?)
             || (a.Network? && Waiting(ev) && Settled(ev, a.result) == Done(r, FromNetwork(response)))
    ensures ev.FetchAsset? || ((ev.OpenPages? || ev.OpenData?) && ev.request == r && ev.response == response)
  {
    hide MatchAny;
  }

  lemma OpenPuts(route: Request -> Branch, offline: OfflineKeys, s: State, e: nat)
    requires e in s.events && (s.events[e].OpenPages? || s.events[e].OpenData?)
    ensures var ev, t := s.events[e], Step(route, offline, s, Continue(e));
      var name := if ev.OpenPages? then PagesCache else AssetsCache;
      t.puts == s.puts + [Put(name, Entry(ev.request, ev.response))] && name in t.caches.stores
  {}

  /** A put that succeeds files its entry under its request's URL, if the cache is still there, and changes no
      other entry; a put that ends, successful or not, is gone. */
  lemma CommitFiles(offline: OfflineKeys, tr: seq<State>, acts: seq<Action>, k: nat, p: nat, stored: bool)
    requires IsRun(Route, offline, tr, acts) && k < |acts| && acts[k] == Commit(p, stored) && p < |tr[k].puts|
    ensures tr[k + 1].puts == tr[k].puts[..p] + tr[k].puts[p + 1..]
    ensures var put := tr[k].puts[p];
      var c, after := tr[k].caches, tr[k + 1].caches;
      if stored && put.name in c.stores
      then
        && after.order == c.order && after.stores.Keys == c.stores.Keys
        && after.stores[put.name] == c.stores[put.name][put.entry.request.url.href := put.entry]
        && forall name :: name in c.stores && name != put.name ==> after.stores[name] == c.stores[name]
      else after == c
  {
    hide Route;
  }

  /** How many steps of its own an event still takes once its fetch has settled. */
  function Rank(ev: Event): nat {
    match ev
    case OpenAssets(_) => 2
    case MatchAssets(_) => 1
    case MatchPage(_) => 3
    case MatchOffline(_) => 2
    case MatchThaiOffline(_) => 1
    case MatchData(_) => 1
    case OpenPages(_, _) => 1
    case OpenData(_, _) => 1
    case _ => 0
  }

  /** Progress: an event that neither waits for the network nor is done gets closer with every step of its
      own, a settled fetch leaves at most three steps, and nobody else's step moves the event. */
  lemma EventsProgress(route: Request -> Branch, offline: OfflineKeys, s: State, e: nat, a: Action)
    requires e in s.events
    ensures var t := Step(route, offline, s, a);
      && e in t.events && t.events[e].request == s.events[e].request
      && (Rank(s.events[e]) == 0 <==> Waiting(s.events[e]) || s.events[e].Done?)
      && (a == Continue(e) && Rank(s.events[e]) > 0 ==> Rank(t.events[e]) < Rank(s.events[e]))
      && (a.Network? && a.e == e && Waiting(s.events[e]) ==> !Waiting(t.events[e]) && Rank(t.events[e]) <= 3)
      && (((a.Network? || a.Continue?) && a.e == e) || t.events[e] == s.events[e])
  {}

  /** What `respondWith` has been given by now. A cached asset is given out while its fetch still runs. */
  function Given(ev: Event): Option<Answer> {
    match ev
    case Done(_, answer) => Some(answer)
    case FetchAsset(_, Some(cached)) => Some(FromCache(cached))
    case _ => None
  }

  /** An asset found at its lookup is given out at once, whatever its fetch does later. */
  lemma CachedAssetIsGivenAtOnce(offline: OfflineKeys, tr: seq<State>, acts: seq<Action>, j: nat, e: nat, r: Request)
    requires IsRun(Route, offline, tr, acts) && LookedUp(tr, acts, j, e, r)
    requires Has(tr[j].caches, AssetsCache, r.url.href)
    ensures e in tr[j + 1].events
    ensures Given(tr[j + 1].events[e]) == Some(FromCache(tr[j].caches.stores[AssetsCache][r.url.href].response))
  {
    assert tr[j + 1] == Step(Route, offline, tr[j], acts[j]);
    hide Route, Settled, MatchAny;
  }

  /** What was given stays given: above all, revalidating a cached asset never changes its answer. */
  lemma {:induction false} AnswersAreFinal(route: Request -> Branch, offline: OfflineKeys, tr: seq<State>,
                                           acts: seq<Action>, i: nat, j: nat, e: nat)
    requires IsRun(route, offline, tr, acts) && i <= j < |tr| && e in tr[i].events && Given(tr[i].events[e]).Some?
    ensures e in tr[j].events && tr[j].events[e].request == tr[i].events[e].request
    ensures Given(tr[j].events[e]) == Given(tr[i].events[e])
    decreases j
  {
    if i < j {
      AnswersAreFinal(route, offline, tr, acts, i, j - 1, e);
      assert tr[j - 1 + 1] == Step(route, offline, tr[j - 1], acts[j - 1]);
      EventsProgress(route, offline, tr[j - 1], e, acts[j - 1]);
    }
  }

  /** Found under `key` in some cache of this state. */
  ghost predicate Held(s: State, key: string, response: Response) {
    exists name :: MatchIn(s.caches, name, key) == Some(response)
  }

  /** A cached answer was in a cache during the event: under the request's URL, or, for a navigation, under
      the key of the offline page in its language or in Thai. */
  lemma {:induction false} CachedAnswerWasHeld(route: Request -> Branch, offline: OfflineKeys, tr: seq<State>,
                                               acts: seq<Action>, i: nat, e: nat, response: Response) returns (j: nat)
    requires IsRun(route, offline, tr, acts) && i < |tr| && e in tr[i].events
    requires var ev := tr[i].events[e];
      (ev.Done? && ev.answer == FromCache(response)) || (ev.FetchAsset? && ev.cached == Some(response))
    ensures var r := tr[i].events[e].request;
      && j < i && e in tr[j].events
      && (Held(tr[j], r.url.href, response)
          || (route(r) == Pages && (Held(tr[j], offline(LocaleOf(r.url.pathname)), response)
                                    || Held(tr[j], offline(Th), response))))
    decreases i
  {
    assert i > 0;
    EventStep(route, offline, tr, acts, i, e);
    RunIsSound(route, offline, tr, acts, i - 1);
    assert e in tr[i - 1].events ==> EventSound(route, tr[i - 1], tr[i - 1].events[e]);
    hide IsRun, Step, MatchIn, MatchAny, Sound, EventSound, Held, LocaleOf;
    if e in tr[i - 1].events && (tr[i - 1].events[e] == tr[i].events[e] || tr[i - 1].events[e].FetchAsset?) {
      j := CachedAnswerWasHeld(route, offline, tr, acts, i - 1, e, response);
    } else {
      j := i - 1;
      AnswerIsHeld(route, offline, tr[j], tr[j].events[e], response);
    }
  }

  /** What a step finds in the caches was there. */
  lemma AnswerIsHeld(route: Request -> Branch, offline: OfflineKeys, s: State, ev: Event, response: Response)
    requires EventSound(route, s, ev) && !ev.Done? && !ev.FetchAsset?
    requires var next := Stepped(offline, s.caches, ev);
      (next.Done? && next.answer == FromCache(response)) || (next.FetchAsset? && next.cached == Some(response))
    ensures var r := ev.request;
      || Held(s, r.url.href, response)
      || (route(r) == Pages && (Held(s, offline(LocaleOf(r.url.pathname)), response) || Held(s, offline(Th), response)))
  {
    hide MatchAny, MatchIn, LocaleOf;
  }

  /* ---------- activation ---------- */

  /** While the sweep runs its list holds every old cache and nothing else; afterwards there is none. */
  predicate Swept(s: State) {
    && (s.activation.Deleting? ==> forall n :: n in s.activation.stale ==> !Current(n))
    && (s.activation.Deleting? ==> forall n :: n in s.caches.stores && !Current(n) ==> n in s.activation.stale)
    && (s.activation.Active? ==> forall n :: n in s.caches.stores ==> Current(n))
  }

  /** The sweep, step by step: it starts with exactly the caches of other names, deletes any one of them, and
      activation is done when none is left. */
  lemma SweepSteps(route: Request -> Branch, offline: OfflineKeys, s: State, name: CacheName)
    ensures s.activation == Inactive ==>
      && Step(route, offline, s, ListKeys).activation.Deleting?
      && (name in Step(route, offline, s, ListKeys).activation.stale <==> name in s.caches.stores && name.OldCache?)
    ensures s.activation.Deleting? && name in s.activation.stale ==>
      var t := Step(route, offline, s, Delete(name));
      && t.activation == Deleting(s.activation.stale - {name})
      && t.caches.stores == s.caches.stores - {name} && name !in t.caches.order
      && forall other :: other != name ==> (other in t.caches.order <==> other in s.caches.order)
    ensures s.activation == Deleting({}) ==> Step(route, offline, s, Claim).activation == Active
  {
    hide First, Settled, Stepped, CachesAfter, PutsStarted, AssetPuts, Without, OpenCache, PutEntry;
    forall other { RemovedName(s.caches.order, name, other); }
  }

  lemma StepKeepsSwept(route: Request -> Branch, offline: OfflineKeys, s: State, a: Action)
    requires Swept(s)
    ensures Swept(Step(route, offline, s, a))
    ensures s.activation.Active? ==> Step(route, offline, s, a).activation.Active?
  {}

  lemma {:induction false} RunIsSwept(route: Request -> Branch, offline: OfflineKeys, tr: seq<State>,
                                      acts: seq<Action>, i: nat)
    requires IsRun(route, offline, tr, acts) && i < |tr|
    ensures Swept(tr[i])
    decreases i
  {
    if i > 0 {
      RunIsSwept(route, offline, tr, acts, i - 1);
      assert tr[i - 1 + 1] == Step(route, offline, tr[i - 1], acts[i - 1]);
      StepKeepsSwept(route, offline, tr[i - 1], acts[i - 1]);
    }
  }

  /** Once activated, only the three current cache names remain, in this and every later state. */
  lemma {:induction false} OnlyCurrentCachesRemain(route: Request -> Branch, offline: OfflineKeys, tr: seq<State>,
                                                   acts: seq<Action>, i: nat, j: nat)
    requires IsRun(route, offline, tr, acts) && i <= j < |tr| && tr[i].activation.Active?
    ensures tr[j].activation.Active? && tr[j].caches.stores.Keys <= {StaticCache, PagesCache, AssetsCache}
    decreases j
  {
    RunIsSwept(route, offline, tr, acts, j);
    if i < j {
      OnlyCurrentCachesRemain(route, offline, tr, acts, i, j - 1);
      assert tr[j - 1 + 1] == Step(route, offline, tr[j - 1], acts[j - 1]);
      StepKeepsSwept(route, offline, tr[j - 1], acts[j - 1]);
    }
  }

  /** Nothing drops a key of a current cache, and only an install changes the precache. */
  lemma {:induction false} CurrentEntriesSurvive(route: Request -> Branch, offline: OfflineKeys, tr: seq<State>,
                                                 acts: seq<Action>, i: nat, j: nat, name: CacheName)
    requires IsRun(route, offline, tr, acts) && i <= j < |tr| && Current(name) && name in tr[i].caches.stores
    ensures name in tr[j].caches.stores && tr[i].caches.stores[name].Keys <= tr[j].caches.stores[name].Keys
    ensures name == StaticCache && (forall k :: i <= k < j ==> !acts[k].Install?)
      ==> tr[j].caches.stores[name] == tr[i].caches.stores[name]
    decreases j
  {
    hide Step, Swept, Sound;
    if i < j {
      CurrentEntriesSurvive(route, offline, tr, acts, i, j - 1, name);
      RunIsSwept(route, offline, tr, acts, j - 1);
      RunIsSound(route, offline, tr, acts, j - 1);
      assert tr[j - 1 + 1] == Step(route, offline, tr[j - 1], acts[j - 1]);
      CurrentEntriesSurviveStep(route, offline, tr[j - 1], acts[j - 1], tr[0].caches, name);
    }
  }

  /** Cache `name` is still there with all its keys. */
  predicate Survives(before: Caches, after: Caches, name: CacheName) {
    name in before.stores ==> name in after.stores && before.stores[name].Keys <= after.stores[name].Keys
  }

  /** Opening, filing and deleting another cache drop nothing, and leave other caches as they are. */
  lemma CacheStepSurvives(c: Caches, name: CacheName, touched: CacheName, key: string, e: Entry)
    ensures Survives(c, OpenCache(c, touched), name) && Survives(c, PutEntry(c, touched, key, e), name)
    ensures name != touched ==> Survives(c, DeleteCache(c, touched), name)
    ensures name in c.stores ==> OpenCache(c, touched).stores[name] == c.stores[name]
    ensures name in c.stores && name != touched ==> PutEntry(c, touched, key, e).stores[name] == c.stores[name]
    ensures name in c.stores && name != touched ==> DeleteCache(c, touched).stores[name] == c.stores[name]
  {
    hide RemoveName;
  }

  /** What a step does to the caches, and nothing else it does. */
  function StepCaches(s: State, a: Action): Caches {
    match a
    case Continue(e) => if e in s.events then CachesAfter(s.caches, s.events[e]) else s.caches
    case Commit(p, stored) =>
      if p < |s.puts| && stored
      then PutEntry(s.caches, s.puts[p].name, s.puts[p].entry.request.url.href, s.puts[p].entry) else s.caches
    case Install(entries) =>
      var c := OpenCache(s.caches, StaticCache);
      c.(stores := c.stores[StaticCache := c.stores[StaticCache] + entries])
    case Delete(name) =>
      if s.activation.Deleting? && name in s.activation.stale then DeleteCache(s.caches, name) else s.caches
    case _ => s.caches
  }

  lemma StepCachesOnly(route: Request -> Branch, offline: OfflineKeys, s: State, a: Action)
    ensures Step(route, offline, s, a).caches == StepCaches(s, a)
  {
    hide First, Settled, Stepped, PutsStarted, AssetPuts, Without, CachesAfter, OpenCache, PutEntry, DeleteCache;
  }

  lemma CurrentEntriesSurviveStep(route: Request -> Branch, offline: OfflineKeys, s: State, a: Action, initial: Caches,
                                  name: CacheName)
    requires Swept(s) && Sound(route, initial, s) && Current(name) && name in s.caches.stores
    ensures var t := Step(route, offline, s, a);
      && name in t.caches.stores && s.caches.stores[name].Keys <= t.caches.stores[name].Keys
      && (name == StaticCache && !a.Install? ==> t.caches.stores[name] == s.caches.stores[name])
  {
    StepCachesOnly(route, offline, s, a);
    hide Step, OpenCache, PutEntry, DeleteCache, EventSound, EntrySound;
    var c := s.caches;
    match a
    case Continue(e) =>
      forall touched { CacheStepSurvives(c, name, touched, "", Entry(ICONS, Response(0, ""))); }
    case Commit(p, stored) =>
      if p < |s.puts| {
        var put := s.puts[p];
        assert Delivered(route, s, put.name, put.entry);
        CacheStepSurvives(c, name, put.name, put.entry.request.url.href, put.entry);
      }
    case Install(entries) =>
      CacheStepSurvives(c, name, StaticCache, "", Entry(ICONS, Response(0, "")));
    case Delete(touched) =>
      CacheStepSurvives(c, name, touched, "", Entry(ICONS, Response(0, "")));
    case _ =>
  }

  /* ---------- the worker's handlers ---------- */

  const PRECACHE := ["/th/offline", "/favicon.ico", "/icons/icon-192x192.png", "/icons/icon-384x384.png",
                     "/icons/icon-512x512.png", "/icons/icon-maskable-512x512.png", "/icons/apple-touch-icon.png",
                     "/images/icon/logo.png", "/images/hero-bg.jpg"]

  predicate Ok(r: Response) {
    200 <= r.status < 300
  }

  predicate AllOk(responses: seq<Response>) {
    forall i :: 0 <= i < |responses| ==> Ok(responses[i])
  }

  function PrecachedEntry(origin: string, i: nat, response: Response): Entry
    requires i < |PRECACHE|
  {
    Entry(Request("GET", Url(origin + PRECACHE[i], "https:", PRECACHE[i]), "cors", None), response)
  }

  /** The first `|responses|` core assets, each under its own URL. */
  function Precached(origin: string, responses: seq<Response>): (entries: map<string, Entry>)
    requires |responses| <= |PRECACHE|
    ensures forall key :: key in entries ==> exists i :: 0 <= i < |responses| && key == origin + PRECACHE[i]
  {
    if responses == [] then map[]
    else
      var n := |responses| - 1;
      Precached(origin, responses[..n])[origin + PRECACHE[n] := PrecachedEntry(origin, n, responses[n])]
  }

  lemma PrecachedStep(origin: string, responses: seq<Response>, next: Response)
    requires |responses| < |PRECACHE|
    ensures Precached(origin, responses + [next]) ==
      Precached(origin, responses)[origin + PRECACHE[|responses|] := PrecachedEntry(origin, |responses|, next)]
  {
    hide PRECACHE, PrecachedEntry;
    var all := responses + [next];
    assert all[..|all| - 1] == responses;
  }

  /** What `cache.addAll` adds, all or nothing. */
  function Added(origin: string, fetched: Option<seq<Response>>): map<string, Entry>
    requires fetched.Some? ==> |fetched.value| == |PRECACHE|
  {
    if fetched.Some? && AllOk(fetched.value) then Precached(origin, fetched.value) else map[]
  }

  method AddAll(origin: string, fetched: Option<seq<Response>>) returns (entries: map<string, Entry>)
    requires fetched.Some? ==> |fetched.value| == |PRECACHE|
    ensures entries == Added(origin, fetched)
  {
    hide PRECACHE, PrecachedEntry, Precached, Ok;
    entries := map[];
    if fetched.None? {
      return;
    }
    var responses := fetched.value;
    NothingPrecached(origin);
    for i := 0 to |responses|
      invariant AllOk(responses[..i]) && entries == Precached(origin, responses[..i])
    {
      assert responses[..i + 1] == responses[..i] + [responses[i]];
      if !Ok(responses[i]) {
        return map[];
      }
      PrecachedStep(origin, responses[..i], responses[i]);
      entries := entries[origin + PRECACHE[i] := PrecachedEntry(origin, i, responses[i])];
    }
    assert responses[..|responses|] == responses;
  }

  lemma NothingPrecached(origin: string)
    ensures Precached(origin, []) == map[]
  {}

  class CacheStorage {
    var order: seq<CacheName>
    var stores: map<CacheName, map<string, Entry>>

    constructor ()
      ensures Abs() == Caches([], map[])
    {
      order, stores := [], map[];
    }

    ghost function Abs(): Caches
      reads this
    {
      Caches(order, stores)
    }

    method Open(name: CacheName)
      modifies this
      ensures Abs() == OpenCache(old(Abs()), name)
    {
      if name !in stores {
        order := order + [name];
        stores := stores[name := map[]];
      }
    }

    method File(name: CacheName, key: string, e: Entry)
      modifies this
      ensures Abs() == PutEntry(old(Abs()), name, key, e)
    {
      if name in stores {
        stores := stores[name := stores[name][key := e]];
      }
    }

    method Add(name: CacheName, entries: map<string, Entry>)
      requires name in stores
      modifies `stores
      ensures stores == old(stores)[name := old(stores)[name] + entries]
    {
      stores := stores[name := stores[name] + entries];
    }

    method Remove(name: CacheName)
      modifies this
      ensures Abs() == DeleteCache(old(Abs()), name)
    {
      order := RemoveName(order, name);
      stores := stores - {name};
    }

    method MatchAll(key: string) returns (r: Option<Response>)
      ensures r == MatchAny(Abs(), order, key)
    {
      var i := 0;
      while i < |order|
        invariant 0 <= i <= |order|
        invariant MatchAny(Abs(), order, key) == MatchAny(Abs(), order[i..], key)
      {
        assert order[i..][1..] == order[i + 1..];
        if order[i] in stores && key in stores[order[i]] {
          return Some(stores[order[i]][key].response);
        }
        i := i + 1;
      }
      r := None;
    }
  }

  class Worker {
    const caches: CacheStorage
    const offline: OfflineKeys
    var activation: Activation
    var events: map<nat, Event>
    var puts: seq<Put>
    var delivered: set<(Request, Response)>

    constructor (storage: CacheStorage, keys: OfflineKeys)
      ensures caches == storage && offline == keys
      ensures Abs() == State(storage.Abs(), Inactive, map[], [], {})
    {
      caches, offline := storage, keys;
      activation, events, puts, delivered := Inactive, map[], [], {};
    }

    ghost function Abs(): State
      reads this, caches
    {
      State(caches.Abs(), activation, events, puts, delivered)
    }

    method OnFetch(e: nat, request: Request)
      modifies this
      ensures Abs() == Step(Route, offline, old(Abs()), Fetch(e, request))
    {
      var first := First(Route(request), request);
      if first.Some? && e !in events {
        events := events[e := first.value];
      }
    }

    method OnNetwork(e: nat, result: Option<Response>)
      requires e in events && Waiting(events[e])
      modifies this
      ensures Abs() == Step(Route, offline, old(Abs()), Network(e, result))
    {
      var ev := events[e];
      if result.Some? {
        delivered := delivered + {(ev.request, result.value)};
        if ev.FetchAsset? && result.value.status == 200 {
          puts := puts + [Put(AssetsCache, Entry(ev.request, result.value))];
        }
      }
      events := events[e := Settled(ev, result)];
    }

    /** The opening steps. */
    method OnOpen(e: nat)
      requires e in events && (events[e].OpenAssets? || events[e].OpenPages? || events[e].OpenData?)
      modifies this, caches
      ensures Abs() == Step(Route, offline, old(Abs()), Continue(e))
    {
      var ev := events[e];
      if ev.OpenAssets? {
        caches.Open(AssetsCache);
        events := events[e := MatchAssets(ev.request)];
      } else {
        var name := if ev.OpenPages? then PagesCache else AssetsCache;
        caches.Open(name);
        puts := puts + [Put(name, Entry(ev.request, ev.response))];
        events := events[e := Done(ev.request, FromNetwork(ev.response))];
      }
    }

    /** The searching steps. */
    method OnMatch(e: nat)
      requires e in events
      requires events[e].MatchPage? || events[e].MatchOffline? || events[e].MatchThaiOffline? || events[e].MatchData?
      modifies this
      ensures Abs() == Step(Route, offline, old(Abs()), Continue(e))
    {
      hide First, Settled, AssetPuts, MatchAny, LocaleOf;
      var ev := events[e];
      var r := ev.request;
      var key := if ev.MatchOffline? then offline(LocaleOf(r.url.pathname))
                 else if ev.MatchThaiOffline? then offline(Th) else r.url.href;
      var found := caches.MatchAll(key);
      var next;
      if found.Some? {
        next := Done(r, FromCache(found.value));
      } else if ev.MatchPage? {
        next := MatchOffline(r);
      } else if ev.MatchOffline? {
        next := MatchThaiOffline(r);
      } else if ev.MatchThaiOffline? {
        next := Done(r, NetworkError);
      } else {
        next := Done(r, Offline503);
      }
      assert next == Stepped(offline, caches.Abs(), ev);
      events := events[e := next];
    }

    method OnMatchAssets(e: nat)
      requires e in events && events[e].MatchAssets?
      modifies this
      ensures Abs() == Step(Route, offline, old(Abs()), Continue(e))
    {
      var r := events[e].request;
      var cached := None;
      if AssetsCache in caches.stores && r.url.href in caches.stores[AssetsCache] {
        cached := Some(caches.stores[AssetsCache][r.url.href].response);
      }
      events := events[e := FetchAsset(r, cached)];
    }

    method OnCommit(p: nat, stored: bool)
      requires p < |puts|
      modifies this, caches
      ensures Abs() == Step(Route, offline, old(Abs()), Commit(p, stored))
    {
      var put := puts[p];
      if stored {
        caches.File(put.name, put.entry.request.url.href, put.entry);
      }
      puts := Without(puts, p);
    }

    /** Installing opens the static cache and adds all core assets if every one was fetched with an ok
        status; otherwise it adds none. */
    method OnInstall(origin: string, fetched: Option<seq<Response>>)
      requires fetched.Some? ==> |fetched.value| == |PRECACHE|
      modifies caches
      ensures Abs() == Step(Route, offline, old(Abs()), Install(Added(origin, fetched)))
    {
      hide Added, PRECACHE;
      caches.Open(StaticCache);
      var entries := AddAll(origin, fetched);
      caches.Add(StaticCache, entries);
    }

    method OnClaim()
      requires activation == Deleting({})
      modifies this
      ensures Abs() == Step(Route, offline, old(Abs()), Claim)
    {
      activation := Active;
    }

    method OnListKeys()
      requires activation.Inactive?
      modifies this
      ensures Abs() == Step(Route, offline, old(Abs()), ListKeys)
    {
      activation := Deleting(set n | n in caches.stores.Keys && !Current(n));
    }

    method OnDelete(name: CacheName)
      requires activation.Deleting? && name in activation.stale
      modifies this, caches
      ensures Abs() == Step(Route, offline, old(Abs()), Delete(name))
    {
      caches.Remove(name);
      activation := Deleting(activation.stale - {name});
    }
  }

  /* ---------- offline, once installed ---------- */

  /** The offline pages of a site. */
  function OfflinePages(origin: string): OfflineKeys {
    (l: Locale) => origin + (match l case En => "/en/offline" case De => "/de/offline" case Th => "/th/offline")
  }

  /** Which offline page a path is sent to. */
  lemma SiteOfflineKey(origin: string, path: string)
    ensures OfflineKey(OfflinePages(origin), path) ==
      origin + if "/en" <= path then "/en/offline" else if "/de" <= path then "/de/offline" else "/th/offline"
  {}

  /** The order of creation lists exactly the caches that exist. */
  ghost predicate Listed(c: Caches) {
    forall name :: name in c.stores <==> name in c.order
  }

  lemma {:induction false} RemovedName(order: seq<CacheName>, removed: CacheName, name: CacheName)
    ensures name in RemoveName(order, removed) <==> name in order && name != removed
  {
    if order != [] { RemovedName(order[1..], removed, name); }
  }

  lemma CachesStayListed(c: Caches, touched: CacheName, key: string, e: Entry)
    requires Listed(c)
    ensures Listed(OpenCache(c, touched)) && Listed(PutEntry(c, touched, key, e)) && Listed(DeleteCache(c, touched))
  {
    forall name { RemovedName(c.order, touched, name); }
  }

  lemma StepKeepsListed(route: Request -> Branch, offline: OfflineKeys, s: State, a: Action)
    requires Listed(s.caches)
    ensures Listed(Step(route, offline, s, a).caches)
  {
    StepCachesOnly(route, offline, s, a);
    OpenHas(s.caches, StaticCache);
    hide Step, OpenCache, PutEntry, DeleteCache, Listed;
    var none := Entry(ICONS, Response(0, ""));
    match a
    case Continue(e) => forall touched { CachesStayListed(s.caches, touched, "", none); }
    case Commit(p, stored) =>
      if p < |s.puts| {
        var put := s.puts[p];
        CachesStayListed(s.caches, put.name, put.entry.request.url.href, put.entry);
      }
    case Install(entries) =>
      CachesStayListed(s.caches, StaticCache, "", none);
      InstallKeepsListed(OpenCache(s.caches, StaticCache), entries);
    case Delete(touched) => CachesStayListed(s.caches, touched, "", none);
    case _ =>
  }

  lemma OpenHas(c: Caches, name: CacheName)
    ensures name in OpenCache(c, name).stores
  {}

  lemma InstallKeepsListed(c: Caches, entries: map<string, Entry>)
    requires Listed(c) && StaticCache in c.stores
    ensures Listed(c.(stores := c.stores[StaticCache := c.stores[StaticCache] + entries]))
  {}

  lemma {:induction false} RunIsListed(route: Request -> Branch, offline: OfflineKeys, tr: seq<State>,
                                       acts: seq<Action>, i: nat)
    requires IsRun(route, offline, tr, acts) && Listed(tr[0].caches) && i < |tr|
    ensures Listed(tr[i].caches)
    decreases i
  {
    hide Step, Listed;
    if i > 0 {
      RunIsListed(route, offline, tr, acts, i - 1);
      assert tr[i - 1 + 1] == Step(route, offline, tr[i - 1], acts[i - 1]);
      StepKeepsListed(route, offline, tr[i - 1], acts[i - 1]);
    }
  }

  lemma {:induction false} EventsStay(route: Request -> Branch, offline: OfflineKeys, tr: seq<State>,
                                      acts: seq<Action>, i: nat, j: nat, e: nat)
    requires IsRun(route, offline, tr, acts) && i <= j < |tr| && e in tr[i].events
    ensures e in tr[j].events
    decreases j
  {
    if i < j {
      EventsStay(route, offline, tr, acts, i, j - 1, e);
      KeepsRequest(route, offline, tr, acts, j, e);
    }
  }

  /** All nine core assets are precached, each with its own response. */
  lemma {:induction false} PrecachedHas(origin: string, responses: seq<Response>, i: nat)
    requires i < |responses| <= |PRECACHE|
    ensures origin + PRECACHE[i] in Precached(origin, responses)
    ensures Precached(origin, responses)[origin + PRECACHE[i]].response == responses[i]
  {
    PathsDiffer();
    hide PRECACHE;
    var n := |responses| - 1;
    if i < n {
      PrecachedHas(origin, responses[..n], i);
      assert PRECACHE[i] != PRECACHE[n];
      assert (origin + PRECACHE[i])[|origin|..] == PRECACHE[i] && (origin + PRECACHE[n])[|origin|..] == PRECACHE[n];
    }
  }

  lemma PathsDiffer()
    ensures forall i, j :: 0 <= i < j < |PRECACHE| ==> PRECACHE[i] != PRECACHE[j]
  {
    assert "/icons/icon-192x192.png"[12] == '1' && "/icons/icon-384x384.png"[12] == '3';
    assert "/icons/icon-512x512.png"[12] == '5';
  }

  /** Precaching adds nothing unless all nine responses are successes, and then each under its own path. */
  lemma CoreAssets(origin: string, responses: seq<Response>)
    requires |responses| == 9
    ensures Added(origin, Some(responses)) != map[] <==> forall i :: 0 <= i < 9 ==> 200 <= responses[i].status <= 299
    ensures Added(origin, Some(responses)) != map[] ==>
      Added(origin, Some(responses)).Keys == (set i | 0 <= i < 9 :: origin + PRECACHE[i])
    ensures Added(origin, Some(responses)) != map[] ==> forall i :: 0 <= i < 9 ==>
      origin + PRECACHE[i] in Added(origin, Some(responses))
      && Added(origin, Some(responses))[origin + PRECACHE[i]].response == responses[i]
  {
    PathsByNumber();
    hide PrecachedEntry, Precached, PRECACHE;
    forall i | 0 <= i < 9
      ensures origin + PRECACHE[i] in Precached(origin, responses)
      ensures Precached(origin, responses)[origin + PRECACHE[i]].response == responses[i]
    {
      PrecachedHas(origin, responses, i);
    }
    assert origin + PRECACHE[0] in Precached(origin, responses);
    forall key | key in Precached(origin, responses) ensures key in set i | 0 <= i < 9 :: origin + PRECACHE[i] {
      var i :| 0 <= i < |responses| && key == origin + PRECACHE[i];
    }
  }

  /** The core assets. */
  lemma PathsByNumber()
    ensures |PRECACHE| == 9 && PRECACHE[0] == "/th/offline" && PRECACHE[1] == "/favicon.ico"
    ensures PRECACHE[2] == "/icons/icon-192x192.png" && PRECACHE[3] == "/icons/icon-384x384.png"
    ensures PRECACHE[4] == "/icons/icon-512x512.png" && PRECACHE[5] == "/icons/icon-maskable-512x512.png"
    ensures PRECACHE[6] == "/icons/apple-touch-icon.png" && PRECACHE[7] == "/images/icon/logo.png"
    ensures PRECACHE[8] == "/images/hero-bg.jpg"
  {}

  /** Once the core assets are precached, no navigation that begins later ends in a network error: at the least
      it gets the Thai offline page. */
  lemma OfflineOnceInstalled(origin: string, tr: seq<State>, acts: seq<Action>, m: nat, responses: seq<Response>,
                             i: nat, e: nat)
    requires IsRun(Route, OfflinePages(origin), tr, acts) && Listed(tr[0].caches) && m < |acts| && i < |tr|
    requires |responses| == 9 && (forall n :: 0 <= n < 9 ==> 200 <= responses[n].status <= 299)
    requires acts[m] == Install(Added(origin, Some(responses))) && e !in tr[m].events
    requires e in tr[i].events && tr[i].events[e].Done? && Route(tr[i].events[e].request) == Pages
    ensures tr[i].events[e].answer != NetworkError
  {
    var offline := OfflinePages(origin);
    var k, j1, j2, j3 := PageAnswer(offline, tr, acts, i, e);
    hide IsRun, Route, MatchAny, Added;
    if k <= m {
      EventsStay(Route, offline, tr, acts, k, m, e);
    } else if m < j3 < |tr| {
      ThaiPageIsFound(origin, tr, acts, m, responses, j3);
    }
  }

  lemma ThaiPageIsFound(origin: string, tr: seq<State>, acts: seq<Action>, m: nat, responses: seq<Response>, j: nat)
    requires IsRun(Route, OfflinePages(origin), tr, acts) && Listed(tr[0].caches) && m < j < |tr| && m < |acts|
    requires |responses| == 9 && (forall n :: 0 <= n < 9 ==> 200 <= responses[n].status <= 299)
    requires acts[m] == Install(Added(origin, Some(responses)))
    ensures Search(tr[j], origin + "/th/offline").Some?
  {
    var offline := OfflinePages(origin);
    InstalledHas(offline, tr, acts, m, origin, responses);
    hide MatchAny, Added, Step;
    CurrentEntriesSurvive(Route, offline, tr, acts, m + 1, j, StaticCache);
    RunIsListed(Route, offline, tr, acts, j);
    ListedFinds(tr[j].caches, StaticCache, origin + "/th/offline");
  }

  lemma ListedFinds(c: Caches, name: CacheName, key: string)
    requires Listed(c) && Has(c, name, key)
    ensures MatchAny(c, c.order, key).Some?
  {
    hide MatchAny;
    var n :| 0 <= n < |c.order| && c.order[n] == name;
  }

  lemma InstalledHas(offline: OfflineKeys, tr: seq<State>, acts: seq<Action>, m: nat, origin: string,
                     responses: seq<Response>)
    requires IsRun(Route, offline, tr, acts) && m < |acts|
    requires |responses| == 9 && (forall n :: 0 <= n < 9 ==> 200 <= responses[n].status <= 299)
    requires acts[m] == Install(Added(origin, Some(responses)))
    ensures Has(tr[m + 1].caches, StaticCache, origin + "/th/offline")
  {
    PrecachedHas(origin, responses, 0);
    StepCachesOnly(Route, offline, tr[m], acts[m]);
    hide Step, Precached, PrecachedEntry;
  }
}
