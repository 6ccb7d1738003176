/** The play page as a stateful session: the route's play id, the players
    it creates and destroys, the native shell player, the play history it
    posts, and the app-wide presentation state it changes on mount and puts
    back on leave. Timers, the player libraries and the router are events
    and records here: each player is a record in `players`, a navigation
    is a returned `Route`. */
module PlaySession {
  import opened Options
  import opened VideoTypes
  import PlayPage

  /** The fields of `appConfig` the page reads or writes. */
  datatype AppConfig = AppConfig(
    themeType: string,
    playbackRate: real,
    autoNext: bool,
    autoplay: bool,
    fitVideoSize: string,
    fullscreenPlay: bool)

  /** The app-wide refs of the common service: `appConfig`,
      `menuCollapsed`, `isFullscreen`, `playbackRates` and the document
      title `setTitle` writes. */
  class AppState {
    var config: AppConfig
    var menuCollapsed: bool
    var fullscreen: bool
    var playbackRates: seq<real>
    var title: string

    constructor (config: AppConfig, menuCollapsed: bool, fullscreen: bool, playbackRates: seq<real>)
      ensures this.config == config && this.menuCollapsed == menuCollapsed
      ensures this.fullscreen == fullscreen && this.playbackRates == playbackRates && title == ""
    {
      this.config := config;
      this.menuCollapsed := menuCollapsed;
      this.fullscreen := fullscreen;
      this.playbackRates := playbackRates;
      title := "";
    }
  }

  /** An in-page player: what it was built with, whether it is still alive
      and whether its one-shot "complete" handler has run. */
  datatype Player = Player(
    engine: PlayPage.Engine,
    url: string,
    height: Option<int>,
    autoplay: bool,
    poster: string,
    defaultRate: real,
    alive: bool,
    completed: bool)

  datatype NativeState = Playing | Stopped | Closed

  /** The native shell player, what it plays and its rate. */
  datatype NativePlayer = NativePlayer(src: string, autoplay: bool, poster: string, rate: real, state: NativeState)

  /** A `plusPlayURL` call: a source handed to the shell. */
  datatype Launch = Launch(src: string, openType: PlayPage.OpenType)

  /** A `router.replace` to the play page. */
  datatype Route = Route(videoId: int, playId: int)

  /** `videoPlayer?.destroy()`: the most recent player is destroyed. */
  function DestroyLast(ps: seq<Player>): (r: seq<Player>)
    ensures |r| == |ps|
    ensures |ps| > 0 ==> r[|ps| - 1] == ps[|ps| - 1].(alive := false)
    ensures forall i :: 0 <= i < |ps| - 1 ==> r[i] == ps[i]
  {
    if ps == [] then [] else ps[..|ps| - 1] + [ps[|ps| - 1].(alive := false)]
  }

  /** At most the most recent player is alive. */
  predicate OnlyLastAlive(ps: seq<Player>) {
    forall i :: 0 <= i < |ps| - 1 ==> !ps[i].alive
  }

  /** Destroying the most recent player and appending a new one leaves only
      the new one alive. */
  lemma CreateKeepsOnlyLastAlive(ps: seq<Player>, p: Player)
    requires OnlyLastAlive(ps)
    ensures OnlyLastAlive(DestroyLast(ps) + [p])
    ensures (DestroyLast(ps) + [p])[|ps|] == p
  {
    var r := DestroyLast(ps) + [p];
    forall i | 0 <= i < |r| - 1 ensures !r[i].alive {
      assert r[i] == DestroyLast(ps)[i];
    }
  }

  /** Destroying the most recent player leaves none alive. */
  lemma DestroyLastKillsAll(ps: seq<Player>)
    requires OnlyLastAlive(ps)
    ensures forall i :: 0 <= i < |DestroyLast(ps)| ==> !DestroyLast(ps)[i].alive
  {
  }

  /** Marking a player completed changes no player's liveness. */
  lemma CompleteKeepsOnlyLastAlive(ps: seq<Player>, k: nat)
    requires OnlyLastAlive(ps) && k < |ps|
    ensures OnlyLastAlive(ps[k := ps[k].(completed := true)])
  {
    var r := ps[k := ps[k].(completed := true)];
    assert forall i :: 0 <= i < |r| ==> r[i].alive == ps[i].alive;
  }

  /** The player `createPlayer` builds for the current entry. */
  function NewPlayer(cfg: AppConfig, d: VideoDetail, p: Play, innerHeight: int): (r: Player)
    ensures r.alive && !r.completed
    ensures r.url == p.src && r.engine == PlayPage.ChooseEngine(p.src)
    ensures r.height == PlayPage.PlayerHeight(cfg.fitVideoSize, innerHeight)
  {
    Player(PlayPage.ChooseEngine(p.src), p.src, PlayPage.PlayerHeight(cfg.fitVideoSize, innerHeight),
           cfg.autoplay, d.video.cover, cfg.playbackRate, true, false)
  }

  class Session {
    const app: AppState
    const isApp: bool
    const isMsi: bool
    const videoId: int
    /** The presentation state captured when the page is set up. */
    const oldTheme: string
    const oldCollapsed: bool
    const oldFullscreen: bool

    var playId: int
    /** The value of `fullVideoList`, which the page only reads. */
    var videoList: seq<VideoDetail>
    /** Whether the player's host element is rendered. */
    var mounted: bool
    var players: seq<Player>
    var native: Option<NativePlayer>
    var playLog: seq<PlayPage.PlayLog>
    var launches: seq<Launch>
    /** How many times `fetchData` went to the back end. */
    var fetches: nat

    /** Only the most recent player can be alive; the shell uses the
        native player and never an in-page one, and the browser the other
        way round. */
    predicate Valid()
      reads this
    {
      OnlyLastAlive(players) &&
      (isApp ==> players == []) &&
      (!isApp ==> native.None?)
    }

    /** `videoDetail`. */
    function Detail(): (r: Option<VideoDetail>)
      reads this`videoList
      ensures r.Some? ==> r.value in videoList && r.value.video.id == videoId
      ensures r.None? ==> forall i :: 0 <= i < |videoList| ==> videoList[i].video.id != videoId
    {
      PlayPage.DetailFor(videoList, videoId)
    }

    /** `play`. */
    function Current(): (r: PlayPage.Lookup)
      reads this`videoList, this`playId
      ensures r.NoDetail? <==> Detail().None?
      ensures r.Found? ==> r.entry in Detail().value.playlist && r.entry.id == playId
    {
      PlayPage.CurrentPlay(Detail(), playId)
    }

    /** `setup`: the props are taken and the theme, the menu state and the
        fullscreen state are captured. */
    constructor (app: AppState, isApp: bool, isMsi: bool, videoId: int, playId: int, videoList: seq<VideoDetail>)
      ensures Valid()
      ensures this.app == app && this.isApp == isApp && this.isMsi == isMsi
      ensures this.videoId == videoId && this.playId == playId && this.videoList == videoList
      ensures oldTheme == app.config.themeType && oldCollapsed == app.menuCollapsed && oldFullscreen == app.fullscreen
      ensures !mounted && players == [] && native.None? && playLog == [] && launches == [] && fetches == 0
    {
      this.app := app;
      this.isApp := isApp;
      this.isMsi := isMsi;
      this.videoId := videoId;
      this.playId := playId;
      this.videoList := videoList;
      oldTheme := app.config.themeType;
      oldCollapsed := app.menuCollapsed;
      oldFullscreen := app.fullscreen;
      mounted := false;
      players := [];
      native := None;
      playLog := [];
      launches := [];
      fetches := 0;
    }

    /** `onMounted`: the dark theme (`dark` is the value of
        `ThemeTypes.DARK`), fullscreen on the desktop shell when the
        config asks for it, the menu collapsed, and `fetchData`, which goes
        to the back end only while no player exists. */
    method Mount(dark: string) returns (fetched: bool)
      requires Valid()
      modifies this, app
      ensures Valid()
      ensures app.config == old(app.config).(themeType := dark)
      ensures app.fullscreen == if isMsi && old(app.config.fullscreenPlay) then true else old(app.fullscreen)
      ensures app.menuCollapsed
      ensures app.playbackRates == old(app.playbackRates) && app.title == old(app.title)
      ensures fetched <==> old(players) == []
      ensures fetches == if fetched then old(fetches) + 1 else old(fetches)
      ensures mounted
      ensures playId == old(playId) && videoList == old(videoList) && players == old(players)
      ensures native == old(native) && playLog == old(playLog) && launches == old(launches)
    {
      mounted := true;
      app.config := app.config.(themeType := dark);
      if isMsi && app.config.fullscreenPlay {
        app.fullscreen := true;
      }
      app.menuCollapsed := true;
      fetched := players == [];
      if fetched {
        fetches := fetches + 1;
      }
    }

    /** `fullVideoList` changed. */
    method SetVideoList(list: seq<VideoDetail>)
      requires Valid()
      modifies this
      ensures Valid()
      ensures videoList == list
      ensures playId == old(playId) && mounted == old(mounted) && players == old(players)
      ensures native == old(native) && playLog == old(playLog) && launches == old(launches) && fetches == old(fetches)
    {
      videoList := list;
    }

    /** What `createPlayer` leaves, from the state before it: nothing
        changes without a detail, an entry or the element; otherwise the
        title names the video and the entry, and the shell has opened the
        native player and logged the play while the browser has destroyed
        the last player and added a new one. */
    twostate predicate PlayerCreated(innerHeight: int)
      reads this, app
    {
      var d, cur := Detail(), Current();
      if d.None? || !cur.Found? || !mounted then
        players == old(players) && native == old(native) && playLog == old(playLog) && app.title == old(app.title)
      else
        app.title == PlayPage.PageTitle(d.value, cur.entry) &&
        if isApp then
          players == old(players) &&
          native == Some(NativePlayer(cur.entry.src, app.config.autoplay, d.value.video.cover, app.config.playbackRate, Playing)) &&
          playLog == old(playLog) + [PlayPage.PlayLog(d.value.video.id, cur.entry.id)]
        else
          players == DestroyLast(old(players)) + [NewPlayer(app.config, d.value, cur.entry, innerHeight)] &&
          native == old(native) && playLog == old(playLog)
    }

    /** `createPlayer`: nothing without a detail, an entry or a host
        element. In the shell, the native player is opened with the entry
        and the configured rate, and the play is logged at once. In the
        browser, the previous player is destroyed and a new one built;
        its engine and height follow the entry's URL and the config. In
        both cases the document title names the video and the entry. */
    method CreatePlayer(innerHeight: int)
      requires Valid()
      modifies this, app
      ensures Valid()
      ensures app.config == old(app.config) && app.menuCollapsed == old(app.menuCollapsed)
      ensures app.fullscreen == old(app.fullscreen) && app.playbackRates == old(app.playbackRates)
      ensures playId == old(playId) && videoList == old(videoList) && mounted == old(mounted)
      ensures launches == old(launches) && fetches == old(fetches)
      ensures PlayerCreated(innerHeight)
    {
      var d, cur := Detail(), Current();
      if d.None? || !cur.Found? || !mounted {
        return;
      }
      if isApp {
        OpenNative(d.value, cur.entry);
      } else {
        ReplacePlayer(d.value, cur.entry, innerHeight);
      }
      app.title := PlayPage.PageTitle(d.value, cur.entry);
    }

    /** The shell's half of `createPlayer`: open the native player on
        `entry` at the configured rate and log the play. */
    method OpenNative(d: VideoDetail, entry: Play)
      requires Valid() && isApp
      modifies this
      ensures Valid()
      ensures native == Some(NativePlayer(entry.src, app.config.autoplay, d.video.cover, app.config.playbackRate, Playing))
      ensures playLog == old(playLog) + [PlayPage.PlayLog(d.video.id, entry.id)]
      ensures players == old(players) && playId == old(playId) && videoList == old(videoList)
      ensures mounted == old(mounted) && launches == old(launches) && fetches == old(fetches)
    {
      native := Some(NativePlayer(entry.src, app.config.autoplay, d.video.cover, app.config.playbackRate, Playing));
      playLog := playLog + [PlayPage.PlayLog(d.video.id, entry.id)];
    }

    /** The browser's half of `createPlayer`: destroy the previous player
        and build one for `entry`. */
    method ReplacePlayer(d: VideoDetail, entry: Play, innerHeight: int)
      requires Valid() && !isApp
      modifies this
      ensures Valid()
      ensures players == DestroyLast(old(players)) + [NewPlayer(app.config, d, entry, innerHeight)]
      ensures native == old(native) && playLog == old(playLog) && playId == old(playId) && videoList == old(videoList)
      ensures mounted == old(mounted) && launches == old(launches) && fetches == old(fetches)
    {
      var p := NewPlayer(app.config, d, entry, innerHeight);
      CreateKeepsOnlyLastAlive(players, p);
      players := DestroyLast(players) + [p];
    }

    /** The detail request of `fetchData` resolved: `createPlayer`. */
    method DetailLoaded(innerHeight: int)
      requires Valid()
      modifies this, app
      ensures Valid()
      ensures playId == old(playId) && videoList == old(videoList)
      ensures app.config == old(app.config) && app.menuCollapsed == old(app.menuCollapsed)
      ensures app.fullscreen == old(app.fullscreen) && app.playbackRates == old(app.playbackRates)
      ensures mounted == old(mounted) && launches == old(launches) && fetches == old(fetches)
      ensures PlayerCreated(innerHeight)
    {
      CreatePlayer(innerHeight);
    }

    /** `onBeforeRouteUpdate`: the new play id is taken and a player is
        created for it. */
    method RouteUpdate(newPlayId: int, innerHeight: int)
      requires Valid()
      modifies this, app
      ensures Valid()
      ensures playId == newPlayId && videoList == old(videoList)
      ensures app.config == old(app.config) && app.menuCollapsed == old(app.menuCollapsed)
      ensures app.fullscreen == old(app.fullscreen) && app.playbackRates == old(app.playbackRates)
      ensures mounted == old(mounted) && launches == old(launches) && fetches == old(fetches)
      ensures PlayerCreated(innerHeight)
      ensures !isApp && mounted && Current().Found? ==>
        |players| == |old(players)| + 1 && players[|players| - 1].alive &&
        players[|players| - 1].url == Current().entry.src
    {
      playId := newPlayId;
      CreatePlayer(innerHeight);
    }

    /** The one-shot "complete" handler of player `k`: the first time a
        live player completes, the play is logged; later completions and
        destroyed players log nothing. */
    method PlayerComplete(k: nat)
      requires Valid() && k < |players|
      modifies this
      ensures Valid()
      ensures old(players[k].alive && !players[k].completed) ==>
        players == old(players)[k := old(players[k]).(completed := true)] &&
        playLog == old(playLog) + (match PlayPage.PlayLogFor(Detail(), Current()) case None => [] case Some(e) => [e])
      ensures !old(players[k].alive && !players[k].completed) ==> players == old(players) && playLog == old(playLog)
      ensures |playLog| <= |old(playLog)| + 1
      ensures playId == old(playId) && videoList == old(videoList) && mounted == old(mounted)
      ensures native == old(native) && launches == old(launches) && fetches == old(fetches)
    {
      if players[k].alive && !players[k].completed {
        var log := PlayPage.PlayLogFor(Detail(), Current());
        CompleteKeepsOnlyLastAlive(players, k);
        players := players[k := players[k].(completed := true)];
        if log.Some? {
          playLog := playLog + [log.value];
        }
      }
    }

    /** The "ended" handler of player `k` (`autoNextPlay`): a live player
        asks for the next entry of the current circuit, always of the same
        video. */
    method PlayerEnded(k: nat) returns (nav: Option<Route>)
      requires Valid() && k < |players|
      ensures nav.Some? ==> players[k].alive && nav.value.videoId == videoId
      ensures nav.Some? ==> Some(nav.value.playId) == PlayPage.AutoNextTarget(app.config.autoNext, Detail(), Current())
      ensures players[k].alive && PlayPage.AutoNextTarget(app.config.autoNext, Detail(), Current()).Some? ==> nav.Some?
      ensures nav.Some? ==> k == |players| - 1
    {
      nav := None;
      if players[k].alive {
        var target := PlayPage.AutoNextTarget(app.config.autoNext, Detail(), Current());
        if target.Some? {
          nav := Some(Route(videoId, target.value));
        }
      }
    }

    /** `onBeforeRouteLeave`: the player is destroyed, the native player
        closed, and the theme, the menu state and, on the desktop shell,
        the fullscreen state put back as they were at setup. */
    method Leave()
      requires Valid()
      modifies this, app
      ensures Valid()
      ensures app.config == old(app.config).(themeType := oldTheme)
      ensures app.menuCollapsed == oldCollapsed
      ensures app.fullscreen == if isMsi then oldFullscreen else old(app.fullscreen)
      ensures app.playbackRates == old(app.playbackRates) && app.title == old(app.title)
      ensures players == DestroyLast(old(players))
      ensures forall i :: 0 <= i < |players| ==> !players[i].alive
      ensures native == if old(native).Some? then Some(old(native).value.(state := Closed)) else None
      ensures playId == old(playId) && videoList == old(videoList) && mounted == old(mounted)
      ensures playLog == old(playLog) && launches == old(launches) && fetches == old(fetches)
    {
      DestroyLastKillsAll(players);
      players := DestroyLast(players);
      if native.Some? {
        native := Some(native.value.(state := Closed));
      }
      app.config := app.config.(themeType := oldTheme);
      if isMsi {
        app.fullscreen := oldFullscreen;
      }
      app.menuCollapsed := oldCollapsed;
    }

    /** The rate sheet: index 0 (cancel) does nothing; index `i` sets the
        native player and the config to the `i`-th listed rate. The sheet
        lists every rate but the last, and reports only those buttons.
        Without a native player the handler fails before storing the rate. */
    method ChooseRate(index: int)
      requires Valid() && index <= |PlayPage.RateButtons(app.playbackRates)|
      modifies this, app
      ensures Valid()
      ensures var choice := PlayPage.RateForIndex(old(app.playbackRates), index);
        if choice.Choose? && old(native).Some? then
          app.config == old(app.config).(playbackRate := choice.rate.value) &&
          native == Some(old(native).value.(rate := choice.rate.value))
        else
          app.config == old(app.config) && native == old(native)
      ensures app.menuCollapsed == old(app.menuCollapsed) && app.fullscreen == old(app.fullscreen)
      ensures app.playbackRates == old(app.playbackRates) && app.title == old(app.title)
      ensures players == old(players) && playId == old(playId) && videoList == old(videoList)
      ensures mounted == old(mounted) && playLog == old(playLog) && launches == old(launches) && fetches == old(fetches)
    {
      var choice := PlayPage.RateForIndex(app.playbackRates, index);
      if choice.Choose? && native.Some? {
        var r := choice.rate.value;
        native := Some(native.value.(rate := r));
        app.config := app.config.(playbackRate := r);
      }
    }

    /** The open-type sheet: index 0 (cancel) does nothing; otherwise the
        native player is stopped and the entry's source handed to the shell
        natively, or to the browser for index 2. */
    method ChooseOpenType(index: int) returns (launch: Option<Launch>)
      requires Valid()
      modifies this
      ensures Valid()
      ensures launch.None? <==> index <= 0
      ensures launch.Some? ==>
        launch.value == Launch(PlayPage.PlayerUrl(Current()), PlayPage.OpenTypeForIndex(index).value) &&
        launches == old(launches) + [launch.value] &&
        native == (if old(native).Some? then Some(old(native).value.(state := Stopped)) else None)
      ensures launch.None? ==> launches == old(launches) && native == old(native)
      ensures players == old(players) && playId == old(playId) && videoList == old(videoList)
      ensures mounted == old(mounted) && playLog == old(playLog) && fetches == old(fetches)
    {
      var openType := PlayPage.OpenTypeForIndex(index);
      if openType.None? {
        return None;
      }
      if native.Some? {
        native := Some(native.value.(state := Stopped));
      }
      launch := Some(Launch(PlayPage.PlayerUrl(Current()), openType.value));
      launches := launches + [launch.value];
    }

    /** The report dialog's confirm button: what `postReport` is sent, if
        anything. */
    method Report(remark: string) returns (r: Option<PlayPage.Report>)
      requires Valid()
      ensures r.None? <==> Detail().None? || remark == ""
      ensures r.Some? ==> r.value.videoId == videoId && r.value.remark == remark
      ensures r.Some? ==> (r.value.playId.Some? <==> Current().Found?)
      ensures r.Some? && Current().Found? ==> r.value.playId == Some(playId)
    {
      r := PlayPage.ReportFor(Detail(), remark, Current());
    }
  }

  /** A visit to the play page, from setup through mount to leave, leaves
      the theme, the menu, the rates and fullscreen as they were before it,
      and the visited session with no player alive and the native one closed. */
  method Visit(app: AppState, isApp: bool, isMsi: bool, videoId: int, playId: int,
               videoList: seq<VideoDetail>, innerHeight: int, dark: string) returns (s: Session)
    modifies app
    ensures app.config == old(app.config) && app.menuCollapsed == old(app.menuCollapsed)
    ensures app.fullscreen == old(app.fullscreen) && app.playbackRates == old(app.playbackRates)
    ensures forall i :: 0 <= i < |s.players| ==> !s.players[i].alive
    ensures s.native.Some? ==> s.native.value.state == Closed
  {
    s := new Session(app, isApp, isMsi, videoId, playId, videoList);
    var fetched := s.Mount(dark);
    assert fetched;
    s.DetailLoaded(innerHeight);
    s.Leave();
  }
}
