/** The bookkeeping of the notification manager
    (src/lib/appManagers/appNotificationsManager.ts): the unread counter, the
    table of shown notifications with their hidden flags, the sound throttle,
    the favicon de-duplication and the cache of notify settings. Browser
    notifications, audio and the favicon element are not part of this model:
    what the browser decides enters as a `Browser` value, the clock as an
    integer number of milliseconds and API requests as the values they
    return. */
module AppNotifications {
  import opened Wrappers
  import opened JsStrings

  // ---------------------------------------------------------------------
  // Data
  // ---------------------------------------------------------------------

  /** A shown notification, seen through its tag and its `hidden` flag. */
  datatype Shown = Shown(tag: string, hidden: bool)

  /** `NotifyOptions`: only the tag and the key take part in the
      bookkeeping; `None` is `undefined`. */
  datatype NotifyOptions = NotifyOptions(tag: Option<string>, key: Option<string>)

  /** `this.settings`: `None` is an unset volume; an unset flag is `false`. */
  datatype LocalSettings = LocalSettings(volume: Option<real>, nosound: bool, nodesktop: bool)

  /** What the environment offers when `notify` runs: the `Notification`
      API, the permission it grants, whether `new Notification` throws,
      whether the user is idle (`rootScope.idle.isIDLE`) and whether the
      device is mobile (`isMobile`). */
  datatype Browser = Browser(notificationApi: bool, permissionGranted: bool, constructorThrows: bool,
    idle: bool, mobile: bool)

  /** `PeerNotifySettings`: the `peerNotifySettings` kind with its optional
      `mute_until` (in seconds), or any other kind. */
  datatype PeerNotifySettings = PeerSettings(muteUntil: Option<int>) | OtherSettings(kind: string)

  /** `InputNotifyPeer`: a peer, by the id `getPeerId` gives it, or one of
      the kinds `notifyUsers`, `notifyChats`, `notifyBroadcasts`, already
      passed through `convertInputKeyToKey`. */
  datatype InputNotifyPeer = InputPeer(peerId: int) | InputKind(kind: string)

  /** A key of `savePeerSettings` and of the top level of `peerSettings`: a
      numeric peer id or a kind name. */
  datatype SettingsKey = PeerKey(peerId: int) | KindKey(kind: string)

  /** A cached promise: resolved with saved settings, or the pending
      `account.getNotifySettings` request for a peer. */
  datatype Cached = Saved(settings: PeerNotifySettings) | Requested(peer: InputNotifyPeer)

  /** The unread counter, the index behind generated keys and the table of
      shown notifications. */
  datatype Table = Table(count: nat, index: nat, shown: map<string, Shown>)

  /** `soundsPlayed` and the two fields of the sound throttle. */
  datatype Sound = Sound(soundsPlayed: map<string, int>, nextSoundAt: Option<int>, prevSoundVolume: Option<real>)

  /** `peerSettings`: `notifyPeer` and, in `topLevel`, its other keys, an
      absent key standing for `null`. */
  datatype Cache = Cache(notifyPeer: map<int, Cached>, topLevel: map<SettingsKey, Cached>)

  /** The tab's title flashing and favicon: whether a `titleInterval` is
      running (a non-zero handle) and `prevFavicon`. */
  datatype Tab = Tab(titleInterval: bool, prevFavicon: Option<string>)

  /** The fields of the manager that the modelled methods read or write. */
  datatype Bookkeeping = Bookkeeping(
    table: Table, sound: Sound, cache: Cache, tab: Tab,
    uiSupport: bool, stopped: bool, settings: LocalSettings)

  /** The default of `setFavicon`'s argument. */
  const DefaultFavicon: string := "assets/img/favicon.ico"

  /** A string option that JavaScript counts as true: set and non-empty. */
  predicate Truthy(s: Option<string>) {
    s.Some? && s.value != ""
  }

  /** `data.tag || ''`, the tag a new notification carries. */
  function TagText(tag: Option<string>): string {
    if Truthy(tag) then tag.value else ""
  }

  /** The key `soundsPlayed[data.tag]` uses: an unset tag is converted to the
      string `"undefined"`. */
  function TagKey(tag: Option<string>): string {
    match tag
    case None => "undefined"
    case Some(t) => t
  }

  /** `data.key || 'k' + idx`. */
  function NotificationKey(key: Option<string>, idx: nat): string {
    if Truthy(key) then key.value else "k" + NatToString(idx)
  }

  // ---------------------------------------------------------------------
  // The operations on the abstract state
  // ---------------------------------------------------------------------

  /** The early return of `testSound`: a sound is due, the next one is not,
      and the volume is the same as last time. */
  predicate SoundThrottled(snd: Sound, volume: real, now: int) {
    snd.nextSoundAt.Some? && snd.nextSoundAt.value != 0 && now < snd.nextSoundAt.value
    && snd.prevSoundVolume == Some(volume)
  }

  /** `testSound(volume)`: the new state and whether a sound is played. */
  function TestSoundStep(snd: Sound, volume: real, now: int): (Sound, bool) {
    if SoundThrottled(snd, volume, now) then (snd, false)
    else (snd.(nextSoundAt := Some(now + 1000), prevSoundVolume := Some(volume)), true)
  }

  /** Whether `notify` plays a sound under these settings. */
  predicate SoundOn(settings: LocalSettings) {
    settings.volume.Some? && settings.volume.value > 0.0 && !settings.nosound
  }

  /** Lines 459-469: `testSound` runs and the tag's sound time is
      recorded. */
  function NotifySound(snd: Sound, volume: real, tag: Option<string>, now: int): Sound {
    var played := TestSoundStep(snd, volume, now).0;
    played.(soundsPlayed := played.soundsPlayed[TagKey(tag) := now])
  }

  /** Entries with tag `tag` become hidden; the others stay as they are. */
  function HideTagged(shown: map<string, Shown>, tag: string): map<string, Shown> {
    map k | k in shown :: if shown[k].tag == tag then shown[k].(hidden := true) else shown[k]
  }

  /** Lines 471-544, after the count and the sound: the checks that end
      `notify` early, the index, the hidden flags and the new entry. */
  function ShowStep(s: Bookkeeping, data: NotifyOptions, browser: Browser): Bookkeeping {
    if !s.uiSupport || (browser.notificationApi && !browser.permissionGranted) || s.settings.nodesktop then s
    else
      var idx := s.table.index + 1;
      if !browser.notificationApi then s.(table := s.table.(index := idx))
      else
        var shown := if Truthy(data.tag) then HideTagged(s.table.shown, data.tag.value) else s.table.shown;
        if browser.constructorThrows then s.(table := s.table.(index := idx, shown := shown), uiSupport := false)
        else s.(table := s.table.(index := idx, shown := shown[NotificationKey(data.key, idx) := Shown(TagText(data.tag), false)]))
  }

  /** `toggleToggler(enable)` (lines 193-206): nothing on a mobile device;
      otherwise the running interval is cleared, and then either the title
      is reset, which calls `setFavicon()`, or a new interval is started. */
  function TogglerStep(tab: Tab, enable: bool, mobile: bool): Tab {
    if mobile then tab
    else if !enable then Tab(false, FaviconStep(tab.prevFavicon, DefaultFavicon).0)
    else Tab(true, tab.prevFavicon)
  }

  /** Lines 455-457: `toggleToggler()` runs, with `enable` defaulting to
      the idle flag, when no interval is running. */
  function NotifyTab(tab: Tab, browser: Browser): Tab {
    if tab.titleInterval then tab else TogglerStep(tab, browser.idle, browser.mobile)
  }

  /** Lines 454-469 of `notify`: the count, the title flashing and the
      sound. */
  function CountStep(s: Bookkeeping, data: NotifyOptions, browser: Browser, now: int): Bookkeeping {
    var counted := s.(table := s.table.(count := s.table.count + 1), tab := NotifyTab(s.tab, browser));
    if SoundOn(s.settings) then counted.(sound := NotifySound(s.sound, s.settings.volume.value, data.tag, now)) else counted
  }

  /** `notify(data)` (lines 430-549), with `tsNow()` read as `now`. */
  function NotifyStep(s: Bookkeeping, data: NotifyOptions, browser: Browser, now: int): Bookkeeping {
    if s.stopped then s else ShowStep(CountStep(s, data, browser, now), data, browser)
  }

  /** `cancel(key)`. */
  function CancelStep(t: Table, key: string): Table {
    if key in t.shown then
      t.(count := if t.count > 0 then t.count - 1 else t.count, shown := t.shown - {key})
    else t
  }

  /** `hide(key)`. */
  function HideStep(t: Table, key: string): Table {
    if key in t.shown then t.(shown := t.shown[key := t.shown[key].(hidden := true)]) else t
  }

  /** `clear()`. */
  function ClearStep(t: Table): Table {
    t.(shown := map[], count := 0)
  }

  /** `soundReset(tag)`. */
  function SoundResetStep(snd: Sound, tag: string): Sound {
    snd.(soundsPlayed := snd.soundsPlayed - {tag})
  }

  /** `setFavicon(href)`: the new `prevFavicon` and whether the link element
      is replaced. */
  function FaviconStep(prev: Option<string>, href: string): (Option<string>, bool) {
    if prev == Some(href) then (prev, false) else (Some(href), true)
  }

  /** `savePeerSettings(key, settings)`: a numeric key goes under
      `notifyPeer`, a kind name to the top level. */
  function SaveStep(c: Cache, key: SettingsKey, settings: PeerNotifySettings): Cache {
    match key
    case PeerKey(id) => c.(notifyPeer := c.notifyPeer[id := Saved(settings)])
    case KindKey(_) => c.(topLevel := c.topLevel[key := Saved(settings)])
  }

  /** `getNotifySettings(peer)`: the new cache, the promise returned and
      whether `account.getNotifySettings` was requested. A peer is looked up
      under `notifyPeer`, but a miss is stored at the top level. */
  function GetSettingsStep(c: Cache, peer: InputNotifyPeer): (Cache, Cached, bool) {
    match peer
    case InputPeer(id) =>
      if id in c.notifyPeer then (c, c.notifyPeer[id], false)
      else (c.(topLevel := c.topLevel[PeerKey(id) := Requested(peer)]), Requested(peer), true)
    case InputKind(kind) =>
      if KindKey(kind) in c.topLevel then (c, c.topLevel[KindKey(kind)], false)
      else (c.(topLevel := c.topLevel[KindKey(kind) := Requested(peer)]), Requested(peer), true)
  }

  /** `isMuted(settings)`: muted settings of the `peerNotifySettings` kind
      whose `mute_until`, in seconds, lies after `now`, in milliseconds. An
      unset `mute_until` multiplies to `NaN`, which is never greater. */
  function IsMuted(settings: PeerNotifySettings, now: int): bool {
    match settings
    case PeerSettings(muteUntil) => muteUntil.Some? && muteUntil.value * 1000 > now
    case OtherSettings(_) => false
  }

  // ---------------------------------------------------------------------
  // Properties of the operations
  // ---------------------------------------------------------------------

  /** A stopped manager ignores `notify`. */
  lemma NotifyWhenStopped(s: Bookkeeping, data: NotifyOptions, browser: Browser, now: int)
    requires s.stopped
    ensures NotifyStep(s, data, browser, now) == s
  {
  }

  /** A running manager counts the notification whatever the browser allows,
      and the sound bookkeeping follows `testSound`; the settings, the
      favicon and the settings cache are untouched. */
  lemma NotifyCounts(s: Bookkeeping, data: NotifyOptions, browser: Browser, now: int)
    requires !s.stopped
    ensures var r := NotifyStep(s, data, browser, now);
      && r.table.count == s.table.count + 1
      && r.settings == s.settings && r.tab == NotifyTab(s.tab, browser) && !r.stopped && r.cache == s.cache
      && (SoundOn(s.settings) ==>
        var played := TestSoundStep(s.sound, s.settings.volume.value, now).0;
        && r.sound.soundsPlayed == s.sound.soundsPlayed[TagKey(data.tag) := now]
        && r.sound.nextSoundAt == played.nextSoundAt && r.sound.prevSoundVolume == played.prevSoundVolume)
      && (!SoundOn(s.settings) ==> r.sound == s.sound)
  {
  }

  /** The title flashing of `notify`: with no interval running, an active
      user on a desktop gets the title reset and the default favicon
      recorded, an idle one gets an interval started; a mobile device or a
      running interval leaves the tab alone. */
  lemma NotifyTitle(s: Bookkeeping, data: NotifyOptions, browser: Browser, now: int)
    requires !s.stopped
    ensures var r := NotifyStep(s, data, browser, now).tab;
      && (s.tab.titleInterval || browser.mobile ==> r == s.tab)
      && (!s.tab.titleInterval && !browser.mobile && !browser.idle ==>
        !r.titleInterval && r.prevFavicon == Some(DefaultFavicon))
      && (!s.tab.titleInterval && !browser.mobile && browser.idle ==>
        r.titleInterval && r.prevFavicon == s.tab.prevFavicon)
  {
    NotifyCounts(s, data, browser, now);
    FaviconDedupe(s.tab.prevFavicon, DefaultFavicon);
  }

  /** Without support, without permission or with desktop notifications
      turned off, nothing is shown and no key is taken. */
  lemma NotifyBlocked(s: Bookkeeping, data: NotifyOptions, browser: Browser, now: int)
    requires !s.stopped
    requires !s.uiSupport || (browser.notificationApi && !browser.permissionGranted) || s.settings.nodesktop
    ensures NotifyStep(s, data, browser, now).table == s.table.(count := s.table.count + 1)
    ensures NotifyStep(s, data, browser, now).uiSupport == s.uiSupport
  {
  }

  /** A shown notification takes the next index and is stored, visible,
      under the given key or `k` followed by that index; with a tag, the
      earlier notifications with the same tag are hidden, and nothing else in
      the table changes. */
  lemma NotifyShows(s: Bookkeeping, data: NotifyOptions, browser: Browser, now: int)
    requires !s.stopped && s.uiSupport && !s.settings.nodesktop
    requires browser.notificationApi && browser.permissionGranted && !browser.constructorThrows
    ensures var r := NotifyStep(s, data, browser, now).table; var key := NotificationKey(data.key, s.table.index + 1);
      && r.index == s.table.index + 1
      && r.shown.Keys == s.table.shown.Keys + {key}
      && r.shown[key] == Shown(TagText(data.tag), false)
      && forall k :: k in s.table.shown && k != key ==>
        r.shown[k] == if Truthy(data.tag) && s.table.shown[k].tag == data.tag.value then s.table.shown[k].(hidden := true) else s.table.shown[k]
  {
  }

  /** When `new Notification` throws, the index is still taken and the
      same-tag notifications are still hidden, but nothing new is stored and
      support is switched off. */
  lemma NotifyThrows(s: Bookkeeping, data: NotifyOptions, browser: Browser, now: int)
    requires !s.stopped && s.uiSupport && !s.settings.nodesktop
    requires browser.notificationApi && browser.permissionGranted && browser.constructorThrows
    ensures var r := NotifyStep(s, data, browser, now);
      && r.table.index == s.table.index + 1 && !r.uiSupport
      && r.table.shown == (if Truthy(data.tag) then HideTagged(s.table.shown, data.tag.value) else s.table.shown)
  {
  }

  /** Generated keys are `k` followed by decimal digits, distinct for
      distinct indices. */
  lemma GeneratedKeysDistinct(key: Option<string>, i: nat, j: nat)
    requires !Truthy(key) && i != j
    ensures NotificationKey(key, i) != NotificationKey(key, j)
    ensures NotificationKey(key, i)[0] == 'k' && AllDigits(NotificationKey(key, i)[1..])
  {
    var a, b := "k" + NatToString(i), "k" + NatToString(j);
    if a == b {
      assert a[1..] == NatToString(i) && b[1..] == NatToString(j);
      NatToStringInjective(i, j);
    }
    assert a[1..] == NatToString(i);
    NatToStringShape(i);
  }

  /** `testSound` is throttled exactly by its three conditions; when it
      plays, the next sound is due 1000 ms later. */
  lemma TestSoundCases(snd: Sound, volume: real, now: int)
    ensures var (r, played) := TestSoundStep(snd, volume, now);
      && (played <==> !(snd.nextSoundAt.Some? && snd.nextSoundAt.value != 0 && now < snd.nextSoundAt.value && snd.prevSoundVolume == Some(volume)))
      && (played ==> r == Sound(snd.soundsPlayed, Some(now + 1000), Some(volume)))
      && (!played ==> r == snd)
  {
  }

  /** After a sound at `now`, the same volume stays silent for the next
      second and plays again from `now + 1000` on; another volume plays at
      once. */
  lemma ThrottleWindow(snd: Sound, volume: real, now: int, later: int, other: real)
    requires TestSoundStep(snd, volume, now).1 && now + 1000 != 0 && now <= later
    ensures var r := TestSoundStep(snd, volume, now).0;
      && (later < now + 1000 <==> !TestSoundStep(r, volume, later).1)
      && (other != volume ==> TestSoundStep(r, other, later).1)
  {
  }

  /** `cancel` on a shown key forgets it and lowers the count, never below
      zero; on any other key it changes nothing. */
  lemma CancelCases(t: Table, key: string)
    ensures key !in t.shown ==> CancelStep(t, key) == t
    ensures key in t.shown ==>
      && CancelStep(t, key).shown.Keys == t.shown.Keys - {key}
      && (forall k :: k in CancelStep(t, key).shown ==> CancelStep(t, key).shown[k] == t.shown[k])
      && CancelStep(t, key).count == (if t.count == 0 then 0 else t.count - 1)
      && CancelStep(t, key).index == t.index
  {
  }

  /** Cancelling the notification just shown takes the count back to where
      it was and forgets its key. */
  lemma NotifyThenCancel(s: Bookkeeping, data: NotifyOptions, browser: Browser, now: int)
    requires !s.stopped && s.uiSupport && !s.settings.nodesktop
    requires browser.notificationApi && browser.permissionGranted && !browser.constructorThrows
    ensures var key := NotificationKey(data.key, s.table.index + 1); var r := NotifyStep(s, data, browser, now).table;
      && key in r.shown
      && CancelStep(r, key).count == s.table.count
      && key !in CancelStep(r, key).shown
  {
    NotifyCounts(s, data, browser, now);
    NotifyShows(s, data, browser, now);
  }

  /** `hide` keeps the key and the count and only sets the flag. */
  lemma HideKeeps(t: Table, key: string)
    ensures HideStep(t, key).shown.Keys == t.shown.Keys
    ensures HideStep(t, key).count == t.count
    ensures key in t.shown ==> HideStep(t, key).shown[key] == t.shown[key].(hidden := true)
    ensures forall k :: k in t.shown && k != key ==> HideStep(t, key).shown[k] == t.shown[k]
  {
  }

  /** `clear` leaves no notification and a zero count, and clearing twice is
      clearing once. */
  lemma ClearEmpties(t: Table)
    ensures ClearStep(t).shown == map[] && ClearStep(t).count == 0 && ClearStep(t).index == t.index
    ensures ClearStep(ClearStep(t)) == ClearStep(t)
  {
  }

  /** `soundReset` forgets only its own tag. */
  lemma SoundResetOnly(snd: Sound, tag: string)
    ensures tag !in SoundResetStep(snd, tag).soundsPlayed
    ensures forall t :: t in snd.soundsPlayed && t != tag ==>
      t in SoundResetStep(snd, tag).soundsPlayed && SoundResetStep(snd, tag).soundsPlayed[t] == snd.soundsPlayed[t]
    ensures SoundResetStep(snd, tag).soundsPlayed.Keys <= snd.soundsPlayed.Keys
  {
  }

  /** `setFavicon` replaces the element exactly for a new `href`, and a
      repeated call does nothing. */
  lemma FaviconDedupe(prev: Option<string>, href: string)
    ensures FaviconStep(prev, href).1 <==> prev != Some(href)
    ensures FaviconStep(prev, href).0 == Some(href)
    ensures FaviconStep(FaviconStep(prev, href).0, href) == (Some(href), false)
  {
  }

  /** Saved settings are found again without a request. */
  lemma SaveThenGet(c: Cache, peer: InputNotifyPeer, settings: PeerNotifySettings)
    ensures var key := match peer case InputPeer(id) => PeerKey(id) case InputKind(k) => KindKey(k);
      var t := SaveStep(c, key, settings);
      GetSettingsStep(t, peer) == (t, Saved(settings), false)
  {
  }

  /** A peer that misses the cache misses it again: the request is stored
      at the top level and `notifyPeer` is never filled. */
  lemma PeerMissRepeats(c: Cache, id: int)
    requires id !in c.notifyPeer
    ensures var (t, p, fetched) := GetSettingsStep(c, InputPeer(id));
      && fetched && p == Requested(InputPeer(id)) && t.notifyPeer == c.notifyPeer
      && t.topLevel == c.topLevel[PeerKey(id) := p]
      && GetSettingsStep(t, InputPeer(id)).2
  {
  }

  /** A kind that misses the cache is requested once; the next lookup
      returns the same pending request. */
  lemma KindMissCaches(c: Cache, kind: string)
    requires KindKey(kind) !in c.topLevel
    ensures var (t, p, fetched) := GetSettingsStep(c, InputKind(kind));
      && fetched && GetSettingsStep(t, InputKind(kind)) == (t, p, false)
  {
  }

  /** A mute runs out: muted settings are no longer muted from the instant
      `mute_until` names on, and settings without a `mute_until`, or of
      another kind, are never muted. */
  lemma MuteExpires(settings: PeerNotifySettings, now: int, later: int)
    ensures IsMuted(settings, now) ==>
      settings.PeerSettings? && settings.muteUntil.Some? && (later >= settings.muteUntil.value * 1000 ==> !IsMuted(settings, later))
    ensures !(settings.PeerSettings? && settings.muteUntil.Some?) ==> !IsMuted(settings, now)
  {
  }

  /** Settings muted at some instant are muted at every earlier one. */
  lemma MutedEarlier(settings: PeerNotifySettings, earlier: int, now: int)
    requires earlier <= now && IsMuted(settings, now)
    ensures IsMuted(settings, earlier)
  {
  }

  // ---------------------------------------------------------------------
  // The manager
  // ---------------------------------------------------------------------

  /** `AppNotificationsManager`, reduced to the fields of `Bookkeeping`. */
  class AppNotificationsManager {
    var notificationsCount: nat
    var notificationIndex: nat
    var notificationsShown: map<string, Shown>
    var soundsPlayed: map<string, int>
    var nextSoundAt: Option<int>
    var prevSoundVolume: Option<real>
    var titleInterval: bool
    var prevFavicon: Option<string>
    var notificationsUiSupport: bool
    var stopped: bool
    var settings: LocalSettings
    var notifyPeer: map<int, Cached>
    var peerSettings: map<SettingsKey, Cached>

    /** The fields as one value. */
    function State(): Bookkeeping
      reads this
    {
      Bookkeeping(
        Table(notificationsCount, notificationIndex, notificationsShown),
        Sound(soundsPlayed, nextSoundAt, prevSoundVolume),
        Cache(notifyPeer, peerSettings),
        Tab(titleInterval, prevFavicon), notificationsUiSupport, stopped, settings)
    }

    /** The field initialisers and the support check of the constructor. */
    constructor(uiSupport: bool)
      ensures State() == Bookkeeping(Table(0, 0, map[]), Sound(map[], None, None), Cache(map[], map[]),
        Tab(false, None), uiSupport, false, LocalSettings(None, false, false))
    {
      notificationsCount := 0;
      notificationIndex := 0;
      notificationsShown := map[];
      soundsPlayed := map[];
      nextSoundAt := None;
      prevSoundVolume := None;
      titleInterval := false;
      prevFavicon := None;
      notificationsUiSupport := uiSupport;
      stopped := false;
      settings := LocalSettings(None, false, false);
      notifyPeer := map[];
      peerSettings := map[];
    }

    /** `testSound(volume)`; `played` says whether the audio element is
        created. */
    method TestSound(volume: real, now: int) returns (played: bool)
      modifies this
      ensures (State().sound, played) == TestSoundStep(old(State()).sound, volume, now)
      ensures State() == old(State()).(sound := State().sound)
    {
      if nextSoundAt.Some? && nextSoundAt.value != 0 && now < nextSoundAt.value && prevSoundVolume == Some(volume) {
        return false;
      }
      nextSoundAt := Some(now + 1000);
      prevSoundVolume := Some(volume);
      return true;
    }

    /** The `for (let i in this.notificationsShown)` loop of `notify`: every
        shown notification with the tag is marked hidden. */
    method HideTag(tag: string)
      modifies this
      ensures notificationsShown == HideTagged(old(notificationsShown), tag)
      ensures State() == old(State()).(table := old(State()).table.(shown := notificationsShown))
    {
      notificationsShown := HideTaggedLoop(notificationsShown, tag);
    }

    /** `notify(data)`, with `tsNow()` read as `now`. */
    method Notify(data: NotifyOptions, browser: Browser, now: int)
      modifies this
      ensures State() == NotifyStep(old(State()), data, browser, now)
    {
      if stopped {
        return;
      }
      Count(data, browser, now);
      Show(data, browser);
    }

    /** The part of `notify` before the support checks (lines 454-469). */
    method Count(data: NotifyOptions, browser: Browser, now: int)
      modifies this
      ensures State() == CountStep(old(State()), data, browser, now)
    {
      notificationsCount := notificationsCount + 1;
      if !titleInterval {
        ToggleToggler(browser.idle, browser.mobile);
      }
      if settings.volume.Some? && settings.volume.value > 0.0 && !settings.nosound {
        var _ := TestSound(settings.volume.value, now);
        soundsPlayed := soundsPlayed[TagKey(data.tag) := now];
      }
    }

    /** The part of `notify` after the count and the sound (lines 471-544). */
    method Show(data: NotifyOptions, browser: Browser)
      modifies this
      ensures State() == ShowStep(old(State()), data, browser)
    {
      if !notificationsUiSupport || (browser.notificationApi && !browser.permissionGranted) {
        return;
      }
      if settings.nodesktop {
        return;
      }
      notificationIndex := notificationIndex + 1;
      var key := if data.key.Some? && data.key.value != "" then data.key.value else "k" + NatToString(notificationIndex);
      if !browser.notificationApi {
        return;
      }
      if data.tag.Some? && data.tag.value != "" {
        HideTag(data.tag.value);
      }
      if browser.constructorThrows {
        notificationsUiSupport := false;
        return;
      }
      notificationsShown := notificationsShown[key := Shown(TagText(data.tag), false)];
    }

    /** `cancel(key)`. */
    method Cancel(key: string)
      modifies this
      ensures State() == old(State()).(table := CancelStep(old(State()).table, key))
    {
      if key in notificationsShown {
        if notificationsCount > 0 {
          notificationsCount := notificationsCount - 1;
        }
        notificationsShown := notificationsShown - {key};
      }
    }

    /** `hide(key)`. */
    method Hide(key: string)
      modifies this
      ensures State() == old(State()).(table := HideStep(old(State()).table, key))
    {
      if key in notificationsShown {
        notificationsShown := notificationsShown[key := notificationsShown[key].(hidden := true)];
      }
    }

    /** `clear()`, without the `close()` calls on the notifications. */
    method Clear()
      modifies this
      ensures State() == old(State()).(table := ClearStep(old(State()).table))
    {
      notificationsShown := map[];
      notificationsCount := 0;
    }

    /** `soundReset(tag)`. */
    method SoundReset(tag: string)
      modifies this
      ensures State() == old(State()).(sound := SoundResetStep(old(State()).sound, tag))
    {
      soundsPlayed := soundsPlayed - {tag};
    }

    /** `setFavicon(href)`; `swapped` says whether the link element is
        replaced. */
    method SetFavicon(href: string) returns (swapped: bool)
      modifies this
      ensures (prevFavicon, swapped) == FaviconStep(old(prevFavicon), href)
      ensures State() == old(State()).(tab := old(State()).tab.(prevFavicon := prevFavicon))
    {
      if prevFavicon == Some(href) {
        return false;
      }
      prevFavicon := Some(href);
      return true;
    }

    /** `toggleToggler(enable)`, without the title text and the work the
        interval does later. */
    method ToggleToggler(enable: bool, mobile: bool)
      modifies this
      ensures State() == old(State()).(tab := TogglerStep(old(State()).tab, enable, mobile))
    {
      if mobile {
        return;
      }
      titleInterval := false;
      if !enable {
        var _ := SetFavicon(DefaultFavicon);
      } else {
        titleInterval := true;
      }
    }

    /** `stop()`: clear, drop the interval, restore the default favicon and
        stop. */
    method Stop()
      modifies this
      ensures State() == old(State()).(table := ClearStep(old(State()).table),
        tab := Tab(false, Some(DefaultFavicon)), stopped := true)
    {
      Clear();
      titleInterval := false;
      var _ := SetFavicon(DefaultFavicon);
      stopped := true;
    }

    /** `savePeerSettings(key, settings)`. */
    method SavePeerSettings(key: SettingsKey, settings: PeerNotifySettings)
      modifies this
      ensures State() == old(State()).(cache := SaveStep(old(State()).cache, key, settings))
    {
      if key.PeerKey? {
        notifyPeer := notifyPeer[key.peerId := Saved(settings)];
      } else {
        peerSettings := peerSettings[key := Saved(settings)];
      }
    }

    /** `getNotifySettings(peer)`; `fetched` says whether the API request
        was made. */
    method GetNotifySettings(peer: InputNotifyPeer) returns (p: Cached, fetched: bool)
      modifies this
      ensures (State().cache, p, fetched) == GetSettingsStep(old(State()).cache, peer)
      ensures State() == old(State()).(cache := State().cache)
    {
      var key: SettingsKey;
      var found: Option<Cached>;
      if peer.InputPeer? {
        key := PeerKey(peer.peerId);
        found := if peer.peerId in notifyPeer then Some(notifyPeer[peer.peerId]) else None;
      } else {
        key := KindKey(peer.kind);
        found := if key in peerSettings then Some(peerSettings[key]) else None;
      }
      if found.Some? {
        return found.value, false;
      }
      p := Requested(peer);
      peerSettings := peerSettings[key := p];
      fetched := true;
    }
  }

  /** The table after the loop has visited the keys in `visited`. */
  function HideTaggedOn(shown: map<string, Shown>, tag: string, visited: set<string>): map<string, Shown> {
    map k | k in shown :: if k in visited && shown[k].tag == tag then shown[k].(hidden := true) else shown[k]
  }

  /** Visiting one more key updates that entry only. */
  lemma HideOneMore(shown: map<string, Shown>, tag: string, visited: set<string>, k: string)
    requires k in shown && k !in visited
    ensures var m := HideTaggedOn(shown, tag, visited);
      HideTaggedOn(shown, tag, visited + {k}) ==
        if m[k].tag == tag then m[k := m[k].(hidden := true)] else m
  {
  }

  /** The loop of `HideTag` over the keys of `shown`. */
  method HideTaggedLoop(shown: map<string, Shown>, tag: string) returns (r: map<string, Shown>)
    ensures r == HideTagged(shown, tag)
  {
    r := shown;
    var keys := shown.Keys;
    ghost var visited: set<string> := {};
    while keys != {}
      invariant keys == shown.Keys - visited && visited <= shown.Keys
      invariant r == HideTaggedOn(shown, tag, visited)
      decreases |keys|
    {
      var k :| k in keys;
      HideOneMore(shown, tag, visited, k);
      if r[k].tag == tag {
        r := r[k := r[k].(hidden := true)];
      }
      keys := keys - {k};
      visited := visited + {k};
    }
    HideAllVisited(shown, tag, visited);
  }

  /** Once every key is visited the loop has done what `HideTagged` says. */
  lemma HideAllVisited(shown: map<string, Shown>, tag: string, visited: set<string>)
    requires visited == shown.Keys
    ensures HideTaggedOn(shown, tag, visited) == HideTagged(shown, tag)
  {
  }
}
