/** The defaulting rules of the configuration package as pure functions:
    what `updateDebrid` makes of one debrid, how the global WebDAV
    directories map grows while `setDefaults` walks the debrid list, and the
    normal forms of URLBase, Port and the repair strategy. The imperative
    methods of `Configuration.Config` are proved equal to these. */
module Defaults {
  import opened ConfigTypes

  /** `runtime.NumCPU() * 50 / len(c.Debrids)`: the worker count a debrid
      gets when it leaves Workers at 0. Both operands are non-negative, so
      Go's truncating division agrees with Dafny's. */
  function SplitWorkers(numCPU: nat, debridCount: nat): (r: int)
    requires debridCount > 0
    ensures 0 <= r
  {
    (numCPU * WorkersPerCPU) / debridCount
  }

  /** The download-key list a debrid ends up with. */
  function DownloadKeys(d: Debrid): (keys: seq<string>)
    ensures |keys| > 0
    ensures |d.downloadAPIKeys| > 0 ==> keys == d.downloadAPIKeys
    ensures |d.downloadAPIKeys| == 0 ==> keys == [d.apiKey]
  {
    if |d.downloadAPIKeys| > 0 then d.downloadAPIKeys else [d.apiKey]
  }

  /** A WebDAV tunable after defaulting: the debrid's own value if set,
      otherwise the global block's if set, otherwise the literal fallback. */
  predicate FilledFrom(own: string, global: string, fallback: string, r: string)
  {
    && (own != "" ==> r == own)
    && (own == "" && global != "" ==> r == global)
    && (own == "" && global == "" ==> r == fallback)
  }

  /** An rclone setting after defaulting: the debrid's own value if set,
      otherwise the global block's (which may itself be empty). */
  predicate PreferOwn(own: string, global: string, r: string)
  {
    && (own != "" ==> r == own)
    && (own == "" ==> r == global)
  }

  function Tunable(own: string, global: string, fallback: string): (r: string)
    ensures FilledFrom(own, global, fallback, r)
    ensures fallback != "" ==> r != ""
  {
    if own == "" then FirstNonEmpty(global, fallback) else own
  }

  /** The entries held by the global block (none when its map is nil). */
  function GlobalEntries(global: WebDav): (m: map<string, WebdavDirectories>)
  {
    EntriesOf(global.directories, global)
  }

  /** The map a WebDAV debrid's directories are merged into: every global
      entry and every entry of the debrid, the debrid's value winning on a
      key both have. */
  function MergedEntries(global: WebDav, own: Directories): (m: map<string, WebdavDirectories>)
    ensures m.Keys == GlobalEntries(global).Keys + EntriesOf(own, global).Keys
    ensures forall k :: k in EntriesOf(own, global) ==> m[k] == EntriesOf(own, global)[k]
    ensures forall k :: k in GlobalEntries(global) && k !in EntriesOf(own, global) ==> m[k] == GlobalEntries(global)[k]
  {
    GlobalEntries(global) + EntriesOf(own, global)
  }

  /** The WebDav block of a WebDAV-enabled debrid after defaulting. When the
      global map exists the debrid's map becomes that very map; otherwise
      it becomes a fresh map holding the debrid's own entries. */
  function DefaultedWebDav(global: WebDav, own: WebDav, perDebrid: int): (w: WebDav)
    ensures FilledFrom(own.torrentsRefreshInterval, global.torrentsRefreshInterval,
                       DefaultTorrentsRefreshInterval, w.torrentsRefreshInterval)
    ensures FilledFrom(own.downloadLinksRefreshInterval, global.downloadLinksRefreshInterval,
                       DefaultDownloadLinksRefreshInterval, w.downloadLinksRefreshInterval)
    ensures FilledFrom(own.folderNaming, global.folderNaming, DefaultFolderNaming, w.folderNaming)
    ensures FilledFrom(own.autoExpireLinksAfter, global.autoExpireLinksAfter,
                       DefaultAutoExpireLinksAfter, w.autoExpireLinksAfter)
    ensures w.torrentsRefreshInterval != "" && w.downloadLinksRefreshInterval != ""
    ensures w.folderNaming != "" && w.autoExpireLinksAfter != ""
    ensures own.workers != 0 ==> w.workers == own.workers
    ensures own.workers == 0 ==> w.workers == perDebrid
    ensures global.directories.Entries? ==> w.directories == SharedWithGlobal
    ensures !global.directories.Entries? ==> w.directories == Entries(EntriesOf(own.directories, global))
    ensures PreferOwn(own.rcUrl, global.rcUrl, w.rcUrl)
    ensures PreferOwn(own.rcUser, global.rcUser, w.rcUser)
    ensures PreferOwn(own.rcPass, global.rcPass, w.rcPass)
  {
    WebDav(
      torrentsRefreshInterval := Tunable(own.torrentsRefreshInterval, global.torrentsRefreshInterval,
                                         DefaultTorrentsRefreshInterval),
      downloadLinksRefreshInterval := Tunable(own.downloadLinksRefreshInterval,
                                              global.downloadLinksRefreshInterval,
                                              DefaultDownloadLinksRefreshInterval),
      workers := if own.workers == 0 then perDebrid else own.workers,
      folderNaming := Tunable(own.folderNaming, global.folderNaming, DefaultFolderNaming),
      autoExpireLinksAfter := Tunable(own.autoExpireLinksAfter, global.autoExpireLinksAfter,
                                      DefaultAutoExpireLinksAfter),
      directories := if global.directories.Entries? then SharedWithGlobal
                     else Entries(MergedEntries(global, own.directories)),
      rcUrl := FirstNonEmpty(own.rcUrl, global.rcUrl),
      rcUser := FirstNonEmpty(own.rcUser, global.rcUser),
      rcPass := FirstNonEmpty(own.rcPass, global.rcPass))
  }

  /** What `updateDebrid` returns for debrid `d`, given the global block at
      the time of the call. */
  function UpdatedDebrid(global: WebDav, d: Debrid, perDebrid: int): (e: Debrid)
    ensures e == d.(downloadAPIKeys := e.downloadAPIKeys, webDav := e.webDav)
    ensures |e.downloadAPIKeys| > 0
    ensures |d.downloadAPIKeys| > 0 ==> e.downloadAPIKeys == d.downloadAPIKeys
    ensures |d.downloadAPIKeys| == 0 ==> e.downloadAPIKeys == [d.apiKey]
    ensures !d.useWebDav ==> e.webDav == d.webDav
    ensures d.useWebDav ==> e.webDav == DefaultedWebDav(global, d.webDav, perDebrid)
  {
    var keyed := d.(downloadAPIKeys := DownloadKeys(d));
    if !d.useWebDav then keyed
    else keyed.(webDav := DefaultedWebDav(global, d.webDav, perDebrid))
  }

  /** The global block after `updateDebrid(d)`: the merge loop writes the
      debrid's entries into the global map when that map exists. */
  function GlobalAfter(global: WebDav, d: Debrid): (g: WebDav)
    ensures g == global.(directories := g.directories)
    ensures d.useWebDav && global.directories.Entries? ==>
              g.directories == Entries(MergedEntries(global, d.webDav.directories))
    ensures !(d.useWebDav && global.directories.Entries?) ==> g == global
  {
    if d.useWebDav && global.directories.Entries? then
      global.(directories := Entries(MergedEntries(global, d.webDav.directories)))
    else global
  }

  /** The entries a debrid contributes to the growing global map: a debrid
      whose map already is the global map adds nothing new. */
  function Contribution(d: Debrid): (m: map<string, WebdavDirectories>)
  {
    if d.useWebDav && d.webDav.directories.Entries? then d.webDav.directories.entries else map[]
  }

  /** The global map after the debrids `ds` have been merged into `base` in order. */
  function Accumulated(base: map<string, WebdavDirectories>, ds: seq<Debrid>): (m: map<string, WebdavDirectories>)
    decreases |ds|
  {
    if ds == [] then base else Accumulated(base, ds[..|ds| - 1]) + Contribution(ds[|ds| - 1])
  }

  /** Two global blocks that differ at most in the entries of their map. */
  predicate SameTunables(g1: WebDav, g2: WebDav)
  {
    && g1.(directories := Nil) == g2.(directories := Nil)
    && (g1.directories.Entries? <==> g2.directories.Entries?)
  }

  /** `updateDebrid` depends on the global map's existence, never on its entries. */
  lemma UpdatedDebridIgnoresGlobalEntries(g1: WebDav, g2: WebDav, d: Debrid, perDebrid: int)
    requires SameTunables(g1, g2)
    ensures UpdatedDebrid(g1, d, perDebrid) == UpdatedDebrid(g2, d, perDebrid)
  {
  }

  /** The `setDefaults` loop: every debrid in turn is replaced by its
      `updateDebrid` result, threading the global block through. */
  function ApplyAll(global: WebDav, ds: seq<Debrid>, perDebrid: int): (r: (WebDav, seq<Debrid>))
    ensures |r.1| == |ds|
    decreases |ds|
  {
    if ds == [] then (global, [])
    else
      var prefix := ApplyAll(global, ds[..|ds| - 1], perDebrid);
      var last := ds[|ds| - 1];
      (GlobalAfter(prefix.0, last), prefix.1 + [UpdatedDebrid(prefix.0, last, perDebrid)])
  }

  /** What the loop does to the debrids: each is defaulted against the
      global block as it was before the loop, since only the global map's
      entries change along the way and no debrid's result depends on them. */
  lemma {:induction false} ApplyAllDebrids(global: WebDav, ds: seq<Debrid>, perDebrid: int)
    ensures var r := ApplyAll(global, ds, perDebrid);
            && SameTunables(r.0, global)
            && forall i :: 0 <= i < |ds| ==> r.1[i] == UpdatedDebrid(global, ds[i], perDebrid)
    decreases |ds|
  {
    if ds != [] {
      var prefix := ds[..|ds| - 1];
      var last := ds[|ds| - 1];
      ApplyAllDebrids(global, prefix, perDebrid);
      var p := ApplyAll(global, prefix, perDebrid);
      UpdatedDebridIgnoresGlobalEntries(p.0, global, last, perDebrid);
      var r := ApplyAll(global, ds, perDebrid);
      forall i | 0 <= i < |ds| ensures r.1[i] == UpdatedDebrid(global, ds[i], perDebrid) {
        if i < |ds| - 1 {
          assert r.1[i] == p.1[i] && ds[i] == prefix[i];
        }
      }
    }
  }

  /** What the loop does to the global block: its map, when it exists, ends
      up holding the global entries merged with every WebDAV debrid's own
      entries in list order; nothing else in it changes. */
  lemma {:induction false} ApplyAllGlobal(global: WebDav, ds: seq<Debrid>, perDebrid: int)
    ensures global.directories.Entries? ==>
              ApplyAll(global, ds, perDebrid).0
              == global.(directories := Entries(Accumulated(global.directories.entries, ds)))
    ensures !global.directories.Entries? ==> ApplyAll(global, ds, perDebrid).0 == global
    decreases |ds|
  {
    if ds != [] && global.directories.Entries? {
      var prefix := ds[..|ds| - 1];
      var last := ds[|ds| - 1];
      ApplyAllGlobal(global, prefix, perDebrid);
      var acc := Accumulated(global.directories.entries, prefix);
      var p := ApplyAll(global, prefix, perDebrid).0;
      assert GlobalEntries(p) == acc;
      if last.useWebDav {
        assert EntriesOf(last.webDav.directories, p) == if last.webDav.directories.SharedWithGlobal? then acc else Contribution(last);
        assert acc + acc == acc + map[] == acc;
      } else {
        assert acc + Contribution(last) == acc;
      }
    } else if ds != [] {
      ApplyAllGlobal(global, ds[..|ds| - 1], perDebrid);
    }
  }

  /** One more step of the loop: the prefix of length i + 1 is the prefix of
      length i followed by debrid i. */
  lemma ApplyAllStep(global: WebDav, ds: seq<Debrid>, perDebrid: int, i: nat)
    requires i < |ds|
    ensures var prev := ApplyAll(global, ds[..i], perDebrid);
            ApplyAll(global, ds[..i + 1], perDebrid)
            == (GlobalAfter(prev.0, ds[i]), prev.1 + [UpdatedDebrid(prev.0, ds[i], perDebrid)])
  {
    assert ds[..i + 1][..i] == ds[..i];
  }

  /** Defaulting keeps a debrid's alias consistent with any global block whose
      map exists exactly when the original block's does. */
  lemma UpdatedDebridAliasConsistent(global: WebDav, later: WebDav, d: Debrid, perDebrid: int)
    requires AliasConsistent(global, d)
    requires global.directories.Entries? <==> later.directories.Entries?
    ensures AliasConsistent(later, UpdatedDebrid(global, d, perDebrid))
  {
  }

  /** Every key of the global map and of every WebDAV debrid's own map ends
      up in the final global map. */
  lemma {:induction false} AccumulatedKeys(base: map<string, WebdavDirectories>, ds: seq<Debrid>)
    ensures base.Keys <= Accumulated(base, ds).Keys
    ensures forall i :: 0 <= i < |ds| ==> Contribution(ds[i]).Keys <= Accumulated(base, ds).Keys
    decreases |ds|
  {
    if ds != [] {
      var prefix := ds[..|ds| - 1];
      AccumulatedKeys(base, prefix);
      forall i | 0 <= i < |ds|
        ensures Contribution(ds[i]).Keys <= Accumulated(base, ds).Keys
      {
        if i < |ds| - 1 {
          assert ds[i] == prefix[i];
        }
      }
    }
  }

  /** A debrid's own value for a key survives in the final map unless a
      later WebDAV debrid sets the same key. */
  lemma {:induction false} AccumulatedValue(base: map<string, WebdavDirectories>, ds: seq<Debrid>, i: nat, k: string)
    requires i < |ds| && k in Contribution(ds[i])
    requires forall j :: i < j < |ds| ==> k !in Contribution(ds[j])
    ensures k in Accumulated(base, ds) && Accumulated(base, ds)[k] == Contribution(ds[i])[k]
    decreases |ds|
  {
    var prefix := ds[..|ds| - 1];
    if i < |ds| - 1 {
      assert ds[i] == prefix[i];
      forall j | i < j < |prefix| ensures k !in Contribution(prefix[j]) {
        assert prefix[j] == ds[j];
      }
      AccumulatedValue(base, prefix, i, k);
    }
  }

  /** Running the loop a second time over its own output changes nothing. */
  lemma UpdatedDebridIdempotent(global: WebDav, d: Debrid, perDebrid: int)
    ensures UpdatedDebrid(global, UpdatedDebrid(global, d, perDebrid), perDebrid) == UpdatedDebrid(global, d, perDebrid)
  {
  }

  lemma {:induction false} AccumulatedOfDefaulted(global: WebDav, ds: seq<Debrid>, perDebrid: int)
    requires global.directories.Entries?
    requires forall i :: 0 <= i < |ds| ==> ds[i] == UpdatedDebrid(global, ds[i], perDebrid)
    ensures forall base :: Accumulated(base, ds) == base
    decreases |ds|
  {
    if ds != [] {
      var prefix := ds[..|ds| - 1];
      forall i | 0 <= i < |prefix| ensures prefix[i] == UpdatedDebrid(global, prefix[i], perDebrid) {
        assert prefix[i] == ds[i];
      }
      AccumulatedOfDefaulted(global, prefix, perDebrid);
      assert Contribution(ds[|ds| - 1]) == map[];
      forall base ensures Accumulated(base, ds) == base {
        assert Accumulated(base, ds) == Accumulated(base, prefix) + map[];
      }
    }
  }

  /** A defaulted debrid is a fixed point of `updateDebrid` under any global
      block with the same tunables. */
  lemma DefaultedIsFixed(global: WebDav, later: WebDav, d: Debrid, perDebrid: int)
    requires SameTunables(later, global)
    ensures UpdatedDebrid(later, UpdatedDebrid(global, d, perDebrid), perDebrid) == UpdatedDebrid(global, d, perDebrid)
  {
    UpdatedDebridIgnoresGlobalEntries(later, global, UpdatedDebrid(global, d, perDebrid), perDebrid);
    UpdatedDebridIdempotent(global, d, perDebrid);
  }

  /** `setDefaults` runs at load time and again on every save; the second
      run finds the debrids and the global block already in normal form. */
  lemma ApplyAllIdempotent(global: WebDav, ds: seq<Debrid>, perDebrid: int)
    ensures var r := ApplyAll(global, ds, perDebrid); ApplyAll(r.0, r.1, perDebrid) == r
  {
    var r := ApplyAll(global, ds, perDebrid);
    var again := ApplyAll(r.0, r.1, perDebrid);
    ApplyAllDebrids(global, ds, perDebrid);
    ApplyAllDebrids(r.0, r.1, perDebrid);
    ApplyAllGlobal(global, ds, perDebrid);
    ApplyAllGlobal(r.0, r.1, perDebrid);
    assert SameTunables(r.0, global);
    forall i | 0 <= i < |ds| ensures again.1[i] == r.1[i] {
      DefaultedIsFixed(global, r.0, ds[i], perDebrid);
    }
    assert again.1 == r.1;
    if global.directories.Entries? {
      forall i | 0 <= i < |r.1| ensures r.1[i] == UpdatedDebrid(global, r.1[i], perDebrid) {
        DefaultedIsFixed(global, global, ds[i], perDebrid);
      }
      AccumulatedOfDefaulted(global, r.1, perDebrid);
      assert Accumulated(r.0.directories.entries, r.1) == r.0.directories.entries;
    }
    assert again.0 == r.0;
  }

  /** What a WebDAV debrid's Directories denote once the whole list has been
      defaulted against an existing global map: the final global map, which
      holds the global keys, its own keys and every other WebDAV debrid's. */
  lemma {:induction false} SharedDirectoriesAfterAll(global: WebDav, ds: seq<Debrid>, perDebrid: int, i: nat)
    requires global.directories.Entries? && i < |ds| && ds[i].useWebDav
    ensures var r := ApplyAll(global, ds, perDebrid);
            && r.1[i].webDav.directories == SharedWithGlobal
            && EntriesOf(r.1[i].webDav.directories, r.0) == Accumulated(global.directories.entries, ds)
            && global.directories.entries.Keys <= EntriesOf(r.1[i].webDav.directories, r.0).Keys
            && Contribution(ds[i]).Keys <= EntriesOf(r.1[i].webDav.directories, r.0).Keys
  {
    ApplyAllDebrids(global, ds, perDebrid);
    ApplyAllGlobal(global, ds, perDebrid);
    AccumulatedKeys(global.directories.entries, ds);
  }

  /** The alias at work: when two WebDAV debrids set the same directory
      name and the global map exists, the first debrid ends up seeing the
      second debrid's value, not its own; so do the second debrid and the
      global map. */
  lemma EarlierDebridSeesLaterEntry(global: WebDav, d1: Debrid, d2: Debrid, perDebrid: int,
                                    name: string, v1: WebdavDirectories, v2: WebdavDirectories)
    requires global.directories.Entries?
    requires d1.useWebDav && d1.webDav.directories == Entries(map[name := v1])
    requires d2.useWebDav && d2.webDav.directories == Entries(map[name := v2])
    ensures var r := ApplyAll(global, [d1, d2], perDebrid);
            && name in EntriesOf(r.1[0].webDav.directories, r.0)
            && EntriesOf(r.1[0].webDav.directories, r.0)[name] == v2
            && name in EntriesOf(r.1[1].webDav.directories, r.0)
            && EntriesOf(r.1[1].webDav.directories, r.0)[name] == v2
            && name in GlobalEntries(r.0) && GlobalEntries(r.0)[name] == v2
  {
    var ds := [d1, d2];
    AccumulatedValue(global.directories.entries, ds, 1, name);
    SharedDirectoriesAfterAll(global, ds, perDebrid, 0);
    SharedDirectoriesAfterAll(global, ds, perDebrid, 1);
  }

  /** A WebDAV debrid defaulted without a global map keeps a map of its own
      holding exactly its own entries. */
  lemma OwnDirectoriesWithoutGlobal(global: WebDav, d: Debrid, perDebrid: int)
    requires global.directories.Nil? && d.useWebDav && !d.webDav.directories.SharedWithGlobal?
    ensures UpdatedDebrid(global, d, perDebrid).webDav.directories
            == Entries(if d.webDav.directories.Entries? then d.webDav.directories.entries else map[])
  {
  }

  /** URLBase in normal form: starts and ends with a slash. */
  predicate IsNormalURLBase(s: string)
  {
    |s| > 0 && s[0] == '/' && s[|s| - 1] == '/'
  }

  /** URLBase after `setDefaults`: "/" for an empty value, otherwise the
      value with a slash added in front and at the end where missing. */
  function NormalURLBase(s: string): (r: string)
    ensures IsNormalURLBase(r)
    ensures s == "" ==> r == "/"
    ensures IsNormalURLBase(s) ==> r == s
    ensures s != "" ==> r == s || r == "/" + s || r == s + "/" || r == "/" + s + "/"
    ensures s != "" && s[0] == '/' ==> r[..|s|] == s
    ensures s != "" && s[|s| - 1] == '/' ==> r[|r| - |s|..] == s
  {
    if s == "" then "/"
    else
      var lead := if s[0] == '/' then "" else "/";
      var trail := if s[|s| - 1] == '/' then "" else "/";
      lead + s + trail
  }

  /** The three in-place rewrites of `setDefaults` reach the normal form. */
  lemma NormalURLBaseSteps(s: string)
    ensures var filled := if s == "" then "/" else s;
            var led := if filled[0] != '/' then "/" + filled else filled;
            NormalURLBase(s) == if led[|led| - 1] != '/' then led + "/" else led
  {
  }

  lemma NormalURLBaseIdempotent(s: string)
    ensures NormalURLBase(NormalURLBase(s)) == NormalURLBase(s)
  {
  }

  /** The repair strategy after `setDefaults`. */
  function DefaultStrategy(strategy: string): (r: string)
    ensures strategy == "" ==> r == RepairStrategyPerTorrent
    ensures strategy != "" ==> r == strategy
    ensures r != ""
  {
    if strategy == "" then RepairStrategyPerTorrent else strategy
  }

  /** The allowed extensions after `setDefaults`. */
  function DefaultExtensions(allowed: seq<string>, defaults: seq<string>): (r: seq<string>)
    ensures |allowed| > 0 ==> r == allowed
    ensures |allowed| == 0 ==> r == defaults
  {
    if |allowed| == 0 then defaults else allowed
  }
}
