/** The store of discovered devices: one entry per device, one channel per host of a device,
    a bound on the number of devices, expiry, and the channel it answers with. */
module Discovery {
  import opened Base

  const MAX_DISCOVERED_DEVICES: nat := 512
  /** Five minutes, in seconds. */
  const DISCOVERY_TTL: int := 300

  datatype Announcement = Announcement(fingerprint: string, alias: string, protocol: string, port: int)

  datatype Channel = Channel(host: string, protocol: string, port: int, lastSeen: int)

  datatype Entry = Entry(anno: Announcement, channels: map<string, Channel>, lastSeen: int)

  type Store = map<string, Entry>

  /** How a channel's key is spelled, and whether a host is an IPv6 address. */
  datatype Config = Config(key: (string, string, int) -> string, isV6: string -> bool)

  // ------------------------------------------------------------- the best channel

  /** Comparison of strings by their characters. */
  predicate StrLess(a: string, b: string) {
    b != [] && (a == [] || a[0] < b[0] || (a[0] == b[0] && StrLess(a[1..], b[1..])))
  }

  lemma {:induction false} StrTotal(a: string, b: string)
    ensures a == b || StrLess(a, b) || StrLess(b, a)
    ensures !(StrLess(a, b) && StrLess(b, a)) && !StrLess(a, a)
  {
    if a != [] {
      StrTotal(a[1..], a[1..]);
      if b != [] {
        StrTotal(a[1..], b[1..]);
        assert a[0] == b[0] && a[1..] == b[1..] ==> a == b by {
          assert a == [a[0]] + a[1..] && b == [b[0]] + b[1..];
        }
      }
    }
  }

  lemma {:induction false} StrTransitive(a: string, b: string, c: string)
    requires StrLess(a, b) && StrLess(b, c)
    ensures StrLess(a, c)
  {
    if a != [] && a[0] == b[0] == c[0] {
      StrTransitive(a[1..], b[1..], c[1..]);
    }
  }

  /** The loop's comparison: whether `c` replaces `best`. */
  predicate Better(cfg: Config, c: Channel, best: Channel) {
    if cfg.isV6(c.host) != cfg.isV6(best.host) then cfg.isV6(c.host)
    else c.lastSeen > best.lastSeen || (c.lastSeen == best.lastSeen && StrLess(c.host, best.host))
  }

  lemma BetterTransitive(cfg: Config, a: Channel, b: Channel, c: Channel)
    requires Better(cfg, a, b) && Better(cfg, b, c)
    ensures Better(cfg, a, c)
  {
    if StrLess(a.host, b.host) && StrLess(b.host, c.host) {
      StrTransitive(a.host, b.host, c.host);
    }
  }

  /** Between channels of different hosts exactly one is better. */
  lemma BetterTotal(cfg: Config, a: Channel, b: Channel)
    ensures a.host != b.host ==> (Better(cfg, a, b) <==> !Better(cfg, b, a))
    ensures !(Better(cfg, a, b) && Better(cfg, b, a))
  {
    StrTotal(a.host, b.host);
  }

  ghost predicate OnePerHost(channels: map<string, Channel>) {
    forall k, l | k in channels && l in channels && channels[k].host == channels[l].host :: k == l
  }

  ghost predicate IsBest(cfg: Config, channels: map<string, Channel>, best: Channel) {
    (exists k :: k in channels && channels[k] == best)
    && forall k | k in channels && channels[k] != best :: Better(cfg, best, channels[k])
  }

  /** The answer does not depend on the order in which the map yields its channels. */
  lemma BestIsUnique(cfg: Config, channels: map<string, Channel>, a: Channel, b: Channel)
    requires IsBest(cfg, channels, a) && IsBest(cfg, channels, b)
    ensures a == b
  {
    var k :| k in channels && channels[k] == b;
    var l :| l in channels && channels[l] == a;
    BetterTotal(cfg, a, b);
  }

  /** With two channels of one host the answer would depend on the order: neither of two that
      differ only in their port is better. */
  lemma TiesNeedOneHost(cfg: Config, a: Channel, port: int)
    requires port != a.port
    ensures var b := a.(port := port); !Better(cfg, a, b) && !Better(cfg, b, a)
  {
    StrTotal(a.host, a.host);
  }

  /** `a` comes first in the order of strings: up to some place they are equal, and there `a` ends
      or has the smaller character. */
  ghost predicate Precedes(a: string, b: string) {
    exists i: nat :: i <= |a| && i < |b| && a[..i] == b[..i] && (i == |a| || a[i] < b[i])
  }

  lemma {:induction false} StrLessIsPrecedes(a: string, b: string)
    ensures StrLess(a, b) <==> Precedes(a, b)
  {
    if a != [] && b != [] && a[0] == b[0] {
      StrLessIsPrecedes(a[1..], b[1..]);
      if Precedes(a[1..], b[1..]) {
        var i: nat :| i <= |a[1..]| && i < |b[1..]| && a[1..][..i] == b[1..][..i]
            && (i == |a[1..]| || a[1..][i] < b[1..][i]);
        assert a[..i + 1] == [a[0]] + a[1..][..i] && b[..i + 1] == [b[0]] + b[1..][..i];
      }
      if Precedes(a, b) {
        var i: nat :| i <= |a| && i < |b| && a[..i] == b[..i] && (i == |a| || a[i] < b[i]);
        assert a[1..][..i - 1] == a[..i][1..] && b[1..][..i - 1] == b[..i][1..];
      }
    } else if b != [] {
      assert a[..0] == b[..0];
      assert a != [] && Precedes(a, b) ==> a[0] < b[0] by {
        forall i: nat | i <= |a| && i < |b| && 0 < i ensures a != [] && a[0] != b[0] ==> a[..i] != b[..i] {
          assert a != [] ==> a[..i][0] == a[0] && b[..i][0] == b[0];
        }
      }
    }
  }

  /** What a device is answered at: an IPv6 address if it has one; of the addresses of that family
      the one seen last; of those the first by name. */
  ghost predicate Preferred(cfg: Config, channels: map<string, Channel>, best: Channel) {
    && (exists k :: k in channels && channels[k] == best)
    && (forall k | k in channels && cfg.isV6(channels[k].host) :: cfg.isV6(best.host))
    && (forall k | k in channels && (cfg.isV6(channels[k].host) <==> cfg.isV6(best.host)) ::
          && channels[k].lastSeen <= best.lastSeen
          && (channels[k].lastSeen == best.lastSeen ==> !Precedes(channels[k].host, best.host)))
  }

  /** The comparison of the loop finds exactly the preferred channel. */
  lemma {:induction false} BestIsPreferred(cfg: Config, channels: map<string, Channel>, best: Channel)
    requires OnePerHost(channels)
    ensures IsBest(cfg, channels, best) <==> Preferred(cfg, channels, best)
  {
    forall k | k in channels && channels[k] != best
      ensures StrLess(channels[k].host, best.host) <==> Precedes(channels[k].host, best.host)
      ensures best in channels.Values ==> (Better(cfg, best, channels[k]) <==> !Better(cfg, channels[k], best))
    {
      StrLessIsPrecedes(channels[k].host, best.host);
      BetterTotal(cfg, best, channels[k]);
    }
    StrLessIsPrecedes(best.host, best.host);
    StrTotal(best.host, best.host);
  }

  method BestDiscoveryChannel(cfg: Config, channels: map<string, Channel>) returns (best: Channel, found: bool)
    requires OnePerHost(channels)
    ensures found <==> channels != map[]
    ensures found ==> IsBest(cfg, channels, best) && Preferred(cfg, channels, best)
  {
    best := Channel("", "", 0, 0);
    found := false;
    var left := channels.Keys;
    while left != {}
      invariant left <= channels.Keys
      invariant found <==> left != channels.Keys
      invariant found ==> exists k :: k in channels && k !in left && channels[k] == best
      invariant found ==>
                  forall k | k in channels && k !in left && channels[k] != best :: Better(cfg, best, channels[k])
      decreases |left|
    {
      var k :| k in left;
      left := left - {k};
      var channel := channels[k];
      if !found {
        best, found := channel, true;
        continue;
      }
      ghost var was := best;
      ghost var l :| l in channels && l !in left && l != k && channels[l] == best;
      BetterTotal(cfg, channel, best);
      var isV6 := cfg.isV6(channel.host);
      var bestV6 := cfg.isV6(best.host);
      if isV6 != bestV6 {
        if isV6 {
          best := channel;
        }
      } else if channel.lastSeen > best.lastSeen
          || (channel.lastSeen == best.lastSeen && StrLess(channel.host, best.host)) {
        best := channel;
      }
      forall m | m in channels && m !in left && channels[m] != best ensures Better(cfg, best, channels[m]) {
        if best != was && m != k && channels[m] != was {
          BetterTransitive(cfg, best, was, channels[m]);
        }
      }
    }
    BestIsPreferred(cfg, channels, best);
  }

  // ---------------------------------------------------------------- the entries

  function Fingerprint(ip: string, anno: Announcement): string {
    if anno.fingerprint == "" then "host:" + ip else anno.fingerprint
  }

  function ForHost(channels: map<string, Channel>, host: string): map<string, Channel> {
    map k | k in channels && channels[k].host != host :: channels[k]
  }

  /** The entry after another confirmation. */
  function Confirmed(cfg: Config, before: map<string, Channel>, now: int, ip: string, anno: Announcement): Entry {
    Entry(anno,
          ForHost(before, ip)[cfg.key(ip, anno.protocol, anno.port) := Channel(ip, anno.protocol, anno.port, now)], now)
  }

  function ChannelsOf(s: Store, fingerprint: string): map<string, Channel> {
    if fingerprint in s then s[fingerprint].channels else map[]
  }

  ghost predicate Oldest(s: Store, victim: string) {
    victim in s && forall f | f in s :: s[victim].lastSeen <= s[f].lastSeen
  }

  predicate Full(s: Store, fingerprint: string) {
    fingerprint !in s && |s| >= MAX_DISCOVERED_DEVICES
  }

  /** PutDiscovered; `victim` is the entry evicted if the store is full. */
  function Put(cfg: Config, s: Store, now: int, ip: string, anno: Announcement, victim: string): Store {
    var f := Fingerprint(ip, anno);
    var rest := if Full(s, f) then s - {victim} else s;
    rest[f := Confirmed(cfg, ChannelsOf(s, f), now, ip, anno)]
  }

  predicate Current(lastSeen: int, now: int) {
    now - lastSeen <= DISCOVERY_TTL
  }

  function Fresh(channels: map<string, Channel>, now: int): map<string, Channel> {
    map k | k in channels && Current(channels[k].lastSeen, now) :: channels[k]
  }

  predicate Kept(e: Entry, now: int) {
    Fresh(e.channels, now) != map[] && Current(e.lastSeen, now)
  }

  /** cleanupStaleDiscoveredAt */
  function Cleanup(s: Store, now: int): Store {
    map f | f in s && Kept(s[f], now) :: s[f].(channels := Fresh(s[f].channels, now))
  }

  // ------------------------------------------------------------------ histories

  datatype Action = DoPut(now: int, ip: string, anno: Announcement, victim: string) | DoCleanup(now: int)

  ghost predicate Possible(s: Store, a: Action) {
    a.DoPut? && Full(s, Fingerprint(a.ip, a.anno)) ==> Oldest(s, a.victim)
  }

  function Step(cfg: Config, s: Store, a: Action): Store {
    match a
    case DoPut(now, ip, anno, victim) => Put(cfg, s, now, ip, anno, victim)
    case DoCleanup(now) => Cleanup(s, now)
  }

  function Run(cfg: Config, actions: seq<Action>): Store {
    if actions == [] then map[] else Step(cfg, Run(cfg, actions[..|actions| - 1]), actions[|actions| - 1])
  }

  /** A clock that never goes back, and evictions of an oldest entry. */
  ghost predicate Legal(cfg: Config, actions: seq<Action>) {
    actions == [] ||
    var n := |actions| - 1;
    && Legal(cfg, actions[..n]) && Possible(Run(cfg, actions[..n]), actions[n])
    && (n > 0 ==> actions[n - 1].now <= actions[n].now)
  }

  /** The last confirmation of a device by a host. */
  function LastPut(actions: seq<Action>, fingerprint: string, host: string): Option<Channel> {
    if actions == [] then None
    else
      var n := |actions| - 1;
      var a := actions[n];
      if a.DoPut? && Fingerprint(a.ip, a.anno) == fingerprint && a.ip == host then
        Some(Channel(host, a.anno.protocol, a.anno.port, a.now))
      else LastPut(actions[..n], fingerprint, host)
  }

  /** An entry has channels, at most one per host, and was last seen when its latest channel
      was; each channel is the last confirmation of its host. */
  ghost predicate EntryOk(e: Entry, fingerprint: string, actions: seq<Action>) {
    && OnePerHost(e.channels) && (e.anno.fingerprint == "" || e.anno.fingerprint == fingerprint)
    && (exists k :: k in e.channels && e.channels[k].lastSeen == e.lastSeen)
    && (forall k | k in e.channels :: e.channels[k].lastSeen <= e.lastSeen)
    && (forall k | k in e.channels :: LastPut(actions, fingerprint, e.channels[k].host) == Some(e.channels[k]))
  }

  function Clock(actions: seq<Action>): int {
    if actions == [] then 0 else actions[|actions| - 1].now
  }

  ghost predicate StoreOk(s: Store, actions: seq<Action>) {
    && |s| <= MAX_DISCOVERED_DEVICES && "" !in s
    && forall f | f in s :: EntryOk(s[f], f, actions) && (actions != [] ==> s[f].lastSeen <= Clock(actions))
  }

  lemma {:induction false} LastPutGrows(actions: seq<Action>, a: Action, fingerprint: string, host: string)
    ensures LastPut(actions + [a], fingerprint, host) ==
              if a.DoPut? && Fingerprint(a.ip, a.anno) == fingerprint && a.ip == host
              then Some(Channel(host, a.anno.protocol, a.anno.port, a.now)) else LastPut(actions, fingerprint, host)
  {
    var all := actions + [a];
    assert all[..|all| - 1] == actions && all[|all| - 1] == a;
  }

  /** Another confirmation. */
  lemma {:induction false} ConfirmedOk(cfg: Config, s: Store, f: string, actions: seq<Action>, a: Action)
    requires a.DoPut? && f == Fingerprint(a.ip, a.anno)
    requires f in s ==> EntryOk(s[f], f, actions) && s[f].lastSeen <= a.now
    ensures EntryOk(Confirmed(cfg, ChannelsOf(s, f), a.now, a.ip, a.anno), f, actions + [a])
  {
    var before := ChannelsOf(s, f);
    var e := Confirmed(cfg, before, a.now, a.ip, a.anno);
    var key := cfg.key(a.ip, a.anno.protocol, a.anno.port);
    assert key in e.channels && e.channels[key].lastSeen == e.lastSeen;
    forall k | k in e.channels
      ensures e.channels[k].lastSeen <= e.lastSeen
      ensures LastPut(actions + [a], f, e.channels[k].host) == Some(e.channels[k])
    {
      LastPutGrows(actions, a, f, e.channels[k].host);
    }
  }

  lemma {:induction false} OtherOk(e: Entry, f: string, actions: seq<Action>, a: Action)
    requires EntryOk(e, f, actions) && (a.DoPut? ==> f != Fingerprint(a.ip, a.anno))
    ensures EntryOk(e, f, actions + [a])
  {
    forall k | k in e.channels ensures LastPut(actions + [a], f, e.channels[k].host) == Some(e.channels[k]) {
      LastPutGrows(actions, a, f, e.channels[k].host);
    }
  }

  /** For an entry as it should be the two conditions for its removal are one, and what is left
      of it is as it should be. */
  lemma {:induction false} CleanedOk(e: Entry, f: string, actions: seq<Action>, a: Action)
    requires EntryOk(e, f, actions) && a.DoCleanup?
    ensures Fresh(e.channels, a.now) != map[] <==> Current(e.lastSeen, a.now)
    ensures Kept(e, a.now) ==> EntryOk(e.(channels := Fresh(e.channels, a.now)), f, actions + [a])
  {
    var k :| k in e.channels && e.channels[k].lastSeen == e.lastSeen;
    var current := Fresh(e.channels, a.now);
    if Current(e.lastSeen, a.now) {
      assert k in current;
      OtherOk(e.(channels := current), f, actions, a);
    } else {
      assert current == map[];
    }
  }

  lemma {:induction false} SizeAfterPut(s: Store, f: string, e: Entry, victim: string)
    requires |s| <= MAX_DISCOVERED_DEVICES && (Full(s, f) ==> victim in s)
    ensures |(if Full(s, f) then s - {victim} else s)[f := e]| <= MAX_DISCOVERED_DEVICES
  {
    var rest := if Full(s, f) then s - {victim} else s;
    if Full(s, f) {
      assert rest.Keys == s.Keys - {victim};
    }
    assert rest[f := e].Keys == rest.Keys + {f};
  }

  lemma {:induction false} SizeAfterCleanup(s: Store, now: int)
    ensures |Cleanup(s, now)| <= |s|
  {
    SubsetSize(Cleanup(s, now).Keys, s.Keys);
  }

  lemma {:induction false} StepOk(cfg: Config, s: Store, actions: seq<Action>, a: Action)
    requires StoreOk(s, actions) && Possible(s, a) && (actions == [] ==> s == map[])
    requires actions != [] ==> Clock(actions) <= a.now
    ensures StoreOk(Step(cfg, s, a), actions + [a])
  {
    var s1 := Step(cfg, s, a);
    assert Clock(actions + [a]) == a.now;
    match a
    case DoPut(now, ip, anno, victim) =>
      var f := Fingerprint(ip, anno);
      ConfirmedOk(cfg, s, f, actions, a);
      SizeAfterPut(s, f, s1[f], victim);
      forall g | g in s1 && g != f ensures EntryOk(s1[g], g, actions + [a]) {
        OtherOk(s[g], g, actions, a);
      }
    case DoCleanup(now) =>
      SizeAfterCleanup(s, now);
      forall g | g in s1 ensures EntryOk(s1[g], g, actions + [a]) {
        CleanedOk(s[g], g, actions, a);
      }
  }

  /** Over any history of confirmations and cleanups with a clock that never goes back: at most
      512 devices; each has at most one channel per host, every channel is that host's last
      confirmation, and the device was last seen when the latest of them was made. */
  lemma {:induction false} StoreStaysOk(cfg: Config, actions: seq<Action>)
    requires Legal(cfg, actions)
    ensures StoreOk(Run(cfg, actions), actions)
  {
    if actions != [] {
      var n := |actions| - 1;
      StoreStaysOk(cfg, actions[..n]);
      assert actions == actions[..n] + [actions[n]];
      StepOk(cfg, Run(cfg, actions[..n]), actions[..n], actions[n]);
    }
  }

  /** A cleanup keeps exactly the channels confirmed within the time to live, and a device
      exactly if it has one: no device with a current channel is lost, none without one stays. */
  lemma {:induction false} CleanupIsExact(cfg: Config, actions: seq<Action>, now: int, f: string, k: string)
    requires Legal(cfg, actions)
    ensures var s, s1 := Run(cfg, actions), Cleanup(Run(cfg, actions), now);
            && (k in ChannelsOf(s1, f) <==>
                  k in ChannelsOf(s, f) && now - s[f].channels[k].lastSeen <= DISCOVERY_TTL)
            && (k in ChannelsOf(s1, f) ==> s1[f].channels[k] == s[f].channels[k])
            && (f in s1 <==> f in s && now - s[f].lastSeen <= DISCOVERY_TTL)
            && (f in s1 <==> f in s && Fresh(s[f].channels, now) != map[])
  {
    StoreStaysOk(cfg, actions);
    var s := Run(cfg, actions);
    if f in s {
      CleanedOk(s[f], f, actions, DoCleanup(now));
      if k in s[f].channels && Current(s[f].channels[k].lastSeen, now) {
        assert k in Fresh(s[f].channels, now);
      }
    }
  }

  /** A confirmation removes nothing but the same host's earlier channel, unless the store is
      full and the device unknown: then it removes one device, which nobody has heard from for
      longer than from any other. */
  lemma {:induction false} PutRemovesOldest(cfg: Config, actions: seq<Action>, a: Action, g: string)
    requires Legal(cfg, actions) && a.DoPut? && Possible(Run(cfg, actions), a) && g in Run(cfg, actions)
    ensures var s, s1 := Run(cfg, actions), Step(cfg, Run(cfg, actions), a);
            && (g !in s1 <==> Full(s, Fingerprint(a.ip, a.anno)) && g == a.victim)
            && (g !in s1 ==> |s| == MAX_DISCOVERED_DEVICES && forall h | h in s :: s[g].lastSeen <= s[h].lastSeen)
            && (g in s1 && g != Fingerprint(a.ip, a.anno) ==> s1[g] == s[g])
  {
    StoreStaysOk(cfg, actions);
  }

  /** Channels of different hosts have different keys, as they have when hosts hold no bar. */
  ghost predicate KeysApart(cfg: Config) {
    forall h, p, n, h1, p1, n1 | cfg.key(h, p, n) == cfg.key(h1, p1, n1) :: h == h1
  }

  ghost predicate Keyed(cfg: Config, channels: map<string, Channel>) {
    forall k | k in channels :: k == cfg.key(channels[k].host, channels[k].protocol, channels[k].port)
  }

  lemma {:induction false} StoreIsKeyed(cfg: Config, actions: seq<Action>)
    ensures forall f | f in Run(cfg, actions) :: Keyed(cfg, Run(cfg, actions)[f].channels)
  {
    if actions != [] {
      var n := |actions| - 1;
      var s := Run(cfg, actions[..n]);
      StoreIsKeyed(cfg, actions[..n]);
      forall f | f in Run(cfg, actions) ensures Keyed(cfg, Run(cfg, actions)[f].channels) {
        assert Keyed(cfg, ChannelsOf(s, f));
      }
    }
  }

  /** A confirmation gives its device a channel at its address and takes away only the one it had
      there: every other address of the device stays. */
  lemma {:induction false} ConfirmationAddsOne(cfg: Config, actions: seq<Action>, a: Action, c: Channel)
    requires Legal(cfg, actions) && KeysApart(cfg) && a.DoPut? && Possible(Run(cfg, actions), a)
    ensures var s, s1 := Run(cfg, actions), Step(cfg, Run(cfg, actions), a);
            var f := if a.anno.fingerprint == "" then "host:" + a.ip else a.anno.fingerprint;
            && f in s1 && s1[f].anno == a.anno && s1[f].lastSeen == a.now
            && (c in s1[f].channels.Values <==>
                  || c == Channel(a.ip, a.anno.protocol, a.anno.port, a.now)
                  || (f in s && c in s[f].channels.Values && c.host != a.ip))
  {
    StoreIsKeyed(cfg, actions);
    var s, f := Run(cfg, actions), Fingerprint(a.ip, a.anno);
    var channels, kept := ChannelsOf(s, f), ForHost(ChannelsOf(s, f), a.ip);
    assert Keyed(cfg, channels);
    var key := cfg.key(a.ip, a.anno.protocol, a.anno.port);
    assert key !in kept;
    OneReplaced(channels, a.ip, key, Channel(a.ip, a.anno.protocol, a.anno.port, a.now), c);
  }

  lemma {:induction false} OneReplaced(channels: map<string, Channel>, ip: string, key: string, last: Channel,
                                       c: Channel)
    requires key !in ForHost(channels, ip)
    ensures c in ForHost(channels, ip)[key := last].Values <==> c == last || (c in channels.Values && c.host != ip)
  {
    var kept := ForHost(channels, ip);
    if c in channels.Values && c.host != ip {
      var k :| k in channels && channels[k] == c;
      assert kept[key := last][k] == c;
    }
    assert kept[key := last][key] == last;
  }

  // --------------------------------------------------------------- the answers

  /** What a device is answered with: its announcement, at its best channel. */
  function Answer(e: Entry, best: Channel): Announcement {
    e.anno.(protocol := best.protocol, port := best.port)
  }

  ghost predicate AnswersFor(cfg: Config, s: Store, f: string, host: string, anno: Announcement) {
    f in s && exists best :: IsBest(cfg, s[f].channels, best) && best.host == host && anno == Answer(s[f], best)
  }

  /** Some device is answered for like this. */
  ghost predicate Possibly(cfg: Config, s: Store, host: string, anno: Announcement) {
    exists f :: AnswersFor(cfg, s, f, host, anno)
  }

  /** Each device is answered for under the host of its best channel; if devices share one, any
      of them may be the one that is kept. */
  ghost predicate IsListing(cfg: Config, s: Store, result: map<string, Announcement>) {
    && (forall host | host in result :: Possibly(cfg, s, host, result[host]))
    && (forall host, anno | Possibly(cfg, s, host, anno) :: host in result)
  }

  /** Every device that has a channel is answered for, at its preferred channel, and nothing else. */
  ghost predicate ListsPreferred(cfg: Config, s: Store, result: map<string, Announcement>) {
    && (forall f, best | f in s && Preferred(cfg, s[f].channels, best) :: best.host in result)
    && (forall host | host in result :: exists f, best {:trigger Preferred(cfg, s[f].channels, best)} ::
          && f in s && Preferred(cfg, s[f].channels, best) && best.host == host
          && result[host] == s[f].anno.(protocol := best.protocol, port := best.port))
  }

  lemma {:induction false} ListingIsPreferred(cfg: Config, s: Store, result: map<string, Announcement>)
    requires forall f | f in s :: OnePerHost(s[f].channels)
    ensures IsListing(cfg, s, result) ==> ListsPreferred(cfg, s, result)
  {
    forall f, best | f in s ensures IsBest(cfg, s[f].channels, best) <==> Preferred(cfg, s[f].channels, best) {
      BestIsPreferred(cfg, s[f].channels, best);
    }
    if IsListing(cfg, s, result) {
      forall f, best | f in s && Preferred(cfg, s[f].channels, best) ensures best.host in result {
        assert AnswersFor(cfg, s, f, best.host, Answer(s[f], best));
        assert Possibly(cfg, s, best.host, Answer(s[f], best));
      }
    }
  }

  /** Two devices whose best channels have one host. */
  ghost predicate ShareHost(cfg: Config, s: Store, f: string, g: string, a: Channel, b: Channel) {
    f in s && g in s && f != g && IsBest(cfg, s[f].channels, a) && IsBest(cfg, s[g].channels, b) && a.host == b.host
  }

  /** Devices that share a host are answered for alike. */
  ghost predicate SharersAgree(cfg: Config, s: Store) {
    forall f, g, a, b | ShareHost(cfg, s, f, g, a, b) :: Answer(s[f], a) == Answer(s[g], b)
  }

  lemma {:induction false} AgreeingAnswer(cfg: Config, s: Store, host: string, x: Announcement, y: Announcement)
    requires SharersAgree(cfg, s) && Possibly(cfg, s, host, x) && Possibly(cfg, s, host, y)
    ensures x == y
  {
    var f :| AnswersFor(cfg, s, f, host, x);
    var g :| AnswersFor(cfg, s, g, host, y);
    var a :| IsBest(cfg, s[f].channels, a) && a.host == host && x == Answer(s[f], a);
    var b :| IsBest(cfg, s[g].channels, b) && b.host == host && y == Answer(s[g], b);
    if f == g {
      BestIsUnique(cfg, s[f].channels, a, b);
    } else {
      assert ShareHost(cfg, s, f, g, a, b);
    }
  }

  lemma {:induction false} SameListing(cfg: Config, s: Store, result: map<string, Announcement>,
                                       other: map<string, Announcement>)
    requires IsListing(cfg, s, result) && IsListing(cfg, s, other) && SharersAgree(cfg, s)
    ensures other == result
  {
    assert result.Keys == other.Keys;
    forall host | host in result ensures other[host] == result[host] {
      AgreeingAnswer(cfg, s, host, other[host], result[host]);
    }
  }

  lemma {:induction false} OtherListing(cfg: Config, s: Store, result: map<string, Announcement>)
    returns (other: map<string, Announcement>)
    requires IsListing(cfg, s, result) && !SharersAgree(cfg, s)
    ensures IsListing(cfg, s, other) && other != result
  {
    var f, g, a, b :| ShareHost(cfg, s, f, g, a, b) && Answer(s[f], a) != Answer(s[g], b);
    var host, x, y := a.host, Answer(s[f], a), Answer(s[g], b);
    assert AnswersFor(cfg, s, f, host, x) && AnswersFor(cfg, s, g, host, y);
    assert Possibly(cfg, s, host, x) && Possibly(cfg, s, host, y);
    var anno := if result[host] == x then y else x;
    other := result[host := anno];
    assert other[host] != result[host];
  }

  /** The listing of a store depends on the order of iteration exactly if two of its devices have
      best channels of one host and are answered for differently: given any listing, every other
      one is equal to it if and only if there are no such devices. Where every device announces a
      fingerprint, no two devices may share the host of their best channels at all. */
  lemma {:induction false} ListingIsUniqueIff(cfg: Config, actions: seq<Action>, result: map<string, Announcement>)
    requires Legal(cfg, actions) && IsListing(cfg, Run(cfg, actions), result)
    ensures var s := Run(cfg, actions);
            && ((forall other | IsListing(cfg, s, other) :: other == result) <==> SharersAgree(cfg, s))
            && ((forall f | f in s :: s[f].anno.fingerprint != "") ==>
                  (SharersAgree(cfg, s) <==> forall f, g, a, b :: !ShareHost(cfg, s, f, g, a, b)))
  {
    var s := Run(cfg, actions);
    StoreStaysOk(cfg, actions);
    if SharersAgree(cfg, s) {
      forall other | IsListing(cfg, s, other) ensures other == result {
        SameListing(cfg, s, result, other);
      }
    } else {
      var other := OtherListing(cfg, s, result);
    }
    if forall f | f in s :: s[f].anno.fingerprint != "" {
      forall f, g, a, b | ShareHost(cfg, s, f, g, a, b) ensures Answer(s[f], a) != Answer(s[g], b) {
        assert EntryOk(s[f], f, actions) && EntryOk(s[g], g, actions);
      }
    }
  }

  /** Such stores are reached: two devices confirmed from one address, one after the other, give
      two listings, one for each order of iteration. */
  lemma {:induction false} OneAddressTwoDevices(cfg: Config, now: int, ip: string, x: Announcement, y: Announcement)
    returns (first: map<string, Announcement>, second: map<string, Announcement>)
    requires x.fingerprint != "" && y.fingerprint != "" && x.fingerprint != y.fingerprint
    ensures var actions := [DoPut(now, ip, x, ""), DoPut(now, ip, y, "")];
            && Legal(cfg, actions)
            && IsListing(cfg, Run(cfg, actions), first) && IsListing(cfg, Run(cfg, actions), second) && first != second
  {
    var a, b := DoPut(now, ip, x, ""), DoPut(now, ip, y, "");
    var s1 := map[x.fingerprint := Confirmed(cfg, map[], now, ip, x)];
    var s2 := s1[y.fingerprint := Confirmed(cfg, map[], now, ip, y)];
    RunOfTwo(cfg, a, b, s1, s2);
    var cx, cy := Channel(ip, x.protocol, x.port, now), Channel(ip, y.protocol, y.port, now);
    OneChannelIsBest(cfg, map[], now, ip, x);
    OneChannelIsBest(cfg, map[], now, ip, y);
    first, second := map[ip := x], map[ip := y];
    assert Answer(s2[x.fingerprint], cx) == x && Answer(s2[y.fingerprint], cy) == y;
    assert AnswersFor(cfg, s2, x.fingerprint, ip, x) && AnswersFor(cfg, s2, y.fingerprint, ip, y);
    forall host, anno | Possibly(cfg, s2, host, anno) ensures host == ip {
      var f :| AnswersFor(cfg, s2, f, host, anno);
      var best :| IsBest(cfg, s2[f].channels, best) && best.host == host;
    }
    assert Possibly(cfg, s2, ip, x) && Possibly(cfg, s2, ip, y);
    assert first[ip] != second[ip];
  }

  lemma {:induction false} OneChannelIsBest(cfg: Config, before: map<string, Channel>, now: int, ip: string,
                                            anno: Announcement)
    requires before == map[]
    ensures var e, c := Confirmed(cfg, before, now, ip, anno), Channel(ip, anno.protocol, anno.port, now);
            IsBest(cfg, e.channels, c) && forall k | k in e.channels :: e.channels[k] == c
  {
    var key := cfg.key(ip, anno.protocol, anno.port);
    assert key in Confirmed(cfg, before, now, ip, anno).channels;
  }

  lemma {:induction false} RunOfTwo(cfg: Config, a: Action, b: Action, s1: Store, s2: Store)
    requires Possible(map[], a) && Possible(s1, b) && Step(cfg, map[], a) == s1 && Step(cfg, s1, b) == s2
    requires a.now <= b.now
    ensures Legal(cfg, [a, b]) && Run(cfg, [a, b]) == s2
  {
    assert [a, b][..1] == [a] && [a][..0] == [];
    assert Run(cfg, []) == map[] && Run(cfg, [a]) == s1;
    assert Legal(cfg, []) && Legal(cfg, [a]);
  }

  // ------------------------------------------------------------- the discoverer

  class Discoverer {
    var discovered: Store

    constructor ()
      ensures discovered == map[]
    {
      discovered := map[];
    }

    /** The scan for an entry of minimal lastSeen, in whatever order the map yields entries. The
        empty key serves as "none yet". */
    method OldestKey() returns (oldestKey: string)
      requires discovered != map[] && "" !in discovered
      ensures Oldest(discovered, oldestKey)
    {
      oldestKey := "";
      var oldest := 0;
      var left := discovered.Keys;
      while left != {}
        invariant left <= discovered.Keys
        invariant oldestKey == "" <==> left == discovered.Keys
        invariant oldestKey != "" ==> oldestKey in discovered && oldest == discovered[oldestKey].lastSeen
        invariant oldestKey != "" ==> forall f | f in discovered && f !in left :: oldest <= discovered[f].lastSeen
        decreases |left|
      {
        var candidate :| candidate in left;
        left := left - {candidate};
        if oldestKey == "" || discovered[candidate].lastSeen < oldest {
          oldestKey, oldest := candidate, discovered[candidate].lastSeen;
        }
      }
    }

    method PutDiscovered(cfg: Config, now: int, ip: string, anno: Announcement) returns (victim: string)
      requires "" !in discovered
      modifies this
      ensures discovered == Put(cfg, old(discovered), now, ip, anno, victim)
      ensures Possible(old(discovered), DoPut(now, ip, anno, victim))
    {
      var fingerprint := anno.fingerprint;
      if fingerprint == "" {
        fingerprint := "host:" + ip;
      }
      victim := "";
      var rest := discovered;
      if fingerprint !in discovered && |discovered| >= MAX_DISCOVERED_DEVICES {
        victim := OldestKey();
        rest := discovered - {victim};
      }
      var channels: map<string, Channel> := if fingerprint in rest then rest[fingerprint].channels else map[];
      channels := DropHost(channels, ip);
      channels := channels[cfg.key(ip, anno.protocol, anno.port) := Channel(ip, anno.protocol, anno.port, now)];
      discovered := rest[fingerprint := Entry(anno, channels, now)];
    }

    method CleanupStaleAt(now: int)
      modifies this
      ensures discovered == Cleanup(old(discovered), now)
    {
      var left := discovered.Keys;
      var result: Store := map[];
      while left != {}
        invariant left <= discovered.Keys && discovered == old(discovered)
        invariant result.Keys == set f | f in discovered && f !in left && Kept(discovered[f], now)
        invariant forall f | f in result :: result[f] == discovered[f].(channels := Fresh(discovered[f].channels, now))
        decreases |left|
      {
        var f :| f in left;
        left := left - {f};
        var entry := discovered[f];
        var channels := DropStale(entry.channels, now);
        if !(channels == map[] || now - entry.lastSeen > DISCOVERY_TTL) {
          result := result[f := entry.(channels := channels)];
        }
      }
      discovered := result;
    }

    method GetAllDiscovered(cfg: Config) returns (result: map<string, Announcement>)
      requires forall f | f in discovered :: OnePerHost(discovered[f].channels)
      ensures IsListing(cfg, discovered, result) && ListsPreferred(cfg, discovered, result)
    {
      result := map[];
      var left := discovered.Keys;
      while left != {}
        invariant left <= discovered.Keys
        invariant forall host | host in result :: Possibly(cfg, discovered, host, result[host])
        invariant forall f, host, anno | f !in left && AnswersFor(cfg, discovered, f, host, anno) :: host in result
        decreases |left|
      {
        var f :| f in left;
        left := left - {f};
        var best, ok := BestDiscoveryChannel(cfg, discovered[f].channels);
        if ok {
          var anno := Answer(discovered[f], best);
          assert AnswersFor(cfg, discovered, f, best.host, anno);
          result := result[best.host := anno];
          forall host, a | AnswersFor(cfg, discovered, f, host, a) ensures host == best.host {
            var other :| IsBest(cfg, discovered[f].channels, other) && other.host == host
                && a == Answer(discovered[f], other);
            BestIsUnique(cfg, discovered[f].channels, best, other);
          }
        }
      }
      ListingIsPreferred(cfg, discovered, result);
    }
  }

  /** Deletes the channels of one host while ranging over the map. */
  method DropHost(channels: map<string, Channel>, host: string) returns (kept: map<string, Channel>)
    ensures kept == ForHost(channels, host)
  {
    kept := channels;
    var left := channels.Keys;
    while left != {}
      invariant left <= channels.Keys
      invariant kept.Keys == set k | k in channels && (k in left || channels[k].host != host)
      invariant forall k | k in kept :: kept[k] == channels[k]
      decreases |left|
    {
      var k :| k in left;
      left := left - {k};
      if channels[k].host == host {
        kept := kept - {k};
      }
    }
  }

  /** Deletes the channels that have expired. */
  method DropStale(channels: map<string, Channel>, now: int) returns (kept: map<string, Channel>)
    ensures kept == Fresh(channels, now)
  {
    kept := channels;
    var left := channels.Keys;
    while left != {}
      invariant left <= channels.Keys
      invariant kept.Keys == set k | k in channels && (k in left || Current(channels[k].lastSeen, now))
      invariant forall k | k in kept :: kept[k] == channels[k]
      decreases |left|
    {
      var k :| k in left;
      left := left - {k};
      if now - channels[k].lastSeen > DISCOVERY_TTL {
        kept := kept - {k};
      }
    }
  }
}
