/** The Config object: the fields the configuration core reads and writes,
    the file-size window it answers questions about, and the two methods
    that rewrite it in place (`updateDebrid`, `setDefaults`). */
module Configuration {
  import opened ConfigTypes
  import opened Defaults

  /** An empty or unparseable size setting reads as 0, which means "no limit". */
  function SizeBound(setting: string, parseSize: string -> Option<int64>): (r: int64)
    ensures setting == "" ==> r == 0
    ensures parseSize(setting).None? ==> r == 0
    ensures setting != "" && parseSize(setting).Some? ==> r == parseSize(setting).value
  {
    if setting == "" then 0
    else match parseSize(setting)
      case None => 0
      case Some(s) => s
  }

  /** The merge loop of `updateDebrid`: every entry of `from` is written into
      `into`, one key at a time in no particular order. Afterwards the map
      holds every key of both, with the value from `from` wherever `from` has
      the key. */
  method CopyEntries(into: map<string, WebdavDirectories>, from: map<string, WebdavDirectories>)
    returns (merged: map<string, WebdavDirectories>)
    ensures merged.Keys == into.Keys + from.Keys
    ensures forall k :: k in from ==> merged[k] == from[k]
    ensures forall k :: k in into && k !in from ==> merged[k] == into[k]
  {
    merged := into;
    var pending := from.Keys;
    while pending != {}
      invariant pending <= from.Keys
      invariant merged.Keys == into.Keys + (from.Keys - pending)
      invariant forall k :: k in merged ==> merged[k] == if k in from && k !in pending then from[k] else into[k]
      decreases pending
    {
      var name :| name in pending;
      merged := merged[name := from[name]];
      pending := pending - {name};
    }
  }

  class Config {
    var urlBase: string
    var port: string
    var debrids: array<Debrid>
    var qbitTorrent: QBitTorrent
    var repair: Repair
    var webDav: WebDav
    var allowedExt: seq<string>
    var minFileSize: string
    var maxFileSize: string

    /** The global map is never an alias, and a debrid aliases it only when it exists. */
    ghost predicate Valid()
      reads this, debrids
    {
      && GlobalWellFormed(webDav)
      && forall i :: 0 <= i < debrids.Length ==> AliasConsistent(webDav, debrids[i])
    }

    /** The configuration as decoded from its JSON file (no alias exists yet). */
    constructor (urlBase: string, port: string, debrids: seq<Debrid>, qbitTorrent: QBitTorrent,
                 repair: Repair, webDav: WebDav, allowedExt: seq<string>,
                 minFileSize: string, maxFileSize: string)
      requires GlobalWellFormed(webDav)
      requires forall i :: 0 <= i < |debrids| ==> !debrids[i].webDav.directories.SharedWithGlobal?
      ensures Valid() && fresh(this.debrids)
      ensures this.urlBase == urlBase && this.port == port && this.debrids[..] == debrids
      ensures this.qbitTorrent == qbitTorrent && this.repair == repair && this.webDav == webDav
      ensures this.allowedExt == allowedExt
      ensures this.minFileSize == minFileSize && this.maxFileSize == maxFileSize
    {
      this.urlBase := urlBase;
      this.port := port;
      this.debrids := new Debrid[|debrids|](i requires 0 <= i < |debrids| => debrids[i]);
      this.qbitTorrent := qbitTorrent;
      this.repair := repair;
      this.webDav := webDav;
      this.allowedExt := allowedExt;
      this.minFileSize := minFileSize;
      this.maxFileSize := maxFileSize;
    }

    /** `GetMinFileSize`: the lower bound of the size window, 0 for none. */
    function GetMinFileSize(parseSize: string -> Option<int64>): (r: int64)
      reads this
      ensures minFileSize == "" || parseSize(minFileSize).None? ==> r == 0
      ensures minFileSize != "" && parseSize(minFileSize).Some? ==> r == parseSize(minFileSize).value
    {
      SizeBound(minFileSize, parseSize)
    }

    /** `GetMaxFileSize`: the upper bound of the size window, 0 for none. */
    function GetMaxFileSize(parseSize: string -> Option<int64>): (r: int64)
      reads this
      ensures maxFileSize == "" || parseSize(maxFileSize).None? ==> r == 0
      ensures maxFileSize != "" && parseSize(maxFileSize).Some? ==> r == parseSize(maxFileSize).value
    {
      SizeBound(maxFileSize, parseSize)
    }

    /** `IsSizeAllowed`: size 0 (not reported yet) always passes; otherwise the
        size must clear each bound that is set (positive). */
    function IsSizeAllowed(size: int64, parseSize: string -> Option<int64>): (allowed: bool)
      reads this
      ensures size == 0 ==> allowed
      ensures size != 0 ==>
                (allowed <==> && (GetMinFileSize(parseSize) <= 0 || size >= GetMinFileSize(parseSize))
                              && (GetMaxFileSize(parseSize) <= 0 || size <= GetMaxFileSize(parseSize)))
    {
      if size == 0 then true
      else if GetMinFileSize(parseSize) > 0 && size < GetMinFileSize(parseSize) then false
      else if GetMaxFileSize(parseSize) > 0 && size > GetMaxFileSize(parseSize) then false
      else true
    }

    /** With neither bound set, or both unparseable, every size passes. */
    lemma UnboundedAllowsAll(size: int64, parseSize: string -> Option<int64>)
      requires minFileSize == "" || parseSize(minFileSize).None?
      requires maxFileSize == "" || parseSize(maxFileSize).None?
      ensures IsSizeAllowed(size, parseSize)
    {
    }

    /** With both bounds set, a reported size passes exactly inside the closed window. */
    lemma SizeWindow(size: int64, parseSize: string -> Option<int64>)
      requires GetMinFileSize(parseSize) > 0 && GetMaxFileSize(parseSize) > 0
      ensures IsSizeAllowed(size, parseSize) <==>
                size == 0 || GetMinFileSize(parseSize) <= size <= GetMaxFileSize(parseSize)
    {
    }

    /** Negative sizes pass whenever no lower bound is in force. */
    lemma NegativeSizeNeedsNoMinimum(size: int64, parseSize: string -> Option<int64>)
      requires size < 0
      ensures IsSizeAllowed(size, parseSize) <==> GetMinFileSize(parseSize) <= 0
    {
    }

    /** `updateDebrid(d)`: returns the effective configuration of `d`. */
    method UpdateDebrid(d: Debrid, numCPU: nat) returns (e: Debrid)
      requires debrids.Length > 0
      modifies this`webDav
      ensures e == UpdatedDebrid(old(webDav), d, SplitWorkers(numCPU, debrids.Length))
      ensures webDav == GlobalAfter(old(webDav), d)
    {
      var workers := numCPU * WorkersPerCPU;
      var perDebrid := workers / debrids.Length;

      var downloadKeys: seq<string>;
      if |d.downloadAPIKeys| > 0 {
        downloadKeys := d.downloadAPIKeys;
      } else {
        // No download keys given: the main API key serves downloads too.
        downloadKeys := [d.apiKey];
      }
      if !d.useWebDav {
        e := d.(downloadAPIKeys := downloadKeys);
        return;
      }

      var w := DefaultWebDav(d.webDav, perDebrid);
      e := d.(downloadAPIKeys := downloadKeys, webDav := w);
    }

    /** The WebDAV half of `updateDebrid`: fill the debrid's empty tunables
        and merge its directories. When the global directories map exists,
        the merge loop writes into it (the source's local `directories` is
        that map, not a copy) and the debrid's field becomes the same map. */
    method DefaultWebDav(own: WebDav, perDebrid: int) returns (w: WebDav)
      modifies this`webDav
      ensures w == DefaultedWebDav(old(webDav), own, perDebrid)
      ensures old(webDav).directories.Entries? ==>
                webDav == old(webDav).(directories := Entries(MergedEntries(old(webDav), own.directories)))
      ensures !old(webDav).directories.Entries? ==> webDav == old(webDav)
    {
      ghost var before := webDav;
      var torrentsRefresh := own.torrentsRefreshInterval;
      if torrentsRefresh == "" {
        torrentsRefresh := FirstNonEmpty(webDav.torrentsRefreshInterval, DefaultTorrentsRefreshInterval);
      }
      var linksRefresh := own.downloadLinksRefreshInterval;
      if linksRefresh == "" {
        linksRefresh := FirstNonEmpty(webDav.downloadLinksRefreshInterval, DefaultDownloadLinksRefreshInterval);
      }
      var workers := own.workers;
      if workers == 0 {
        workers := perDebrid;
      }
      var folderNaming := own.folderNaming;
      if folderNaming == "" {
        folderNaming := FirstNonEmpty(webDav.folderNaming, DefaultFolderNaming);
      }
      var autoExpire := own.autoExpireLinksAfter;
      if autoExpire == "" {
        autoExpire := FirstNonEmpty(webDav.autoExpireLinksAfter, DefaultAutoExpireLinksAfter);
      }

      var shared := webDav.directories.Entries?;
      var directories: map<string, WebdavDirectories> := if shared then webDav.directories.entries else map[];
      directories := CopyEntries(directories, EntriesOf(own.directories, webDav));
      assert directories == MergedEntries(before, own.directories);
      if shared {
        webDav := webDav.(directories := Entries(directories));
      }

      w := WebDav(
        torrentsRefreshInterval := torrentsRefresh,
        downloadLinksRefreshInterval := linksRefresh,
        workers := workers,
        folderNaming := folderNaming,
        autoExpireLinksAfter := autoExpire,
        directories := if shared then SharedWithGlobal else Entries(directories),
        rcUrl := FirstNonEmpty(own.rcUrl, webDav.rcUrl),
        rcUser := FirstNonEmpty(own.rcUser, webDav.rcUser),
        rcPass := FirstNonEmpty(own.rcPass, webDav.rcPass));
    }

    /** The first loop of `setDefaults`: every entry of the debrid array is
        replaced in place by its `updateDebrid` result, in array order. */
    method UpdateDebrids(numCPU: nat)
      modifies this`webDav, debrids
      ensures debrids.Length > 0 ==>
                && webDav == ApplyAll(old(webDav), old(debrids[..]), SplitWorkers(numCPU, debrids.Length)).0
                && debrids[..] == ApplyAll(old(webDav), old(debrids[..]), SplitWorkers(numCPU, debrids.Length)).1
      ensures debrids.Length == 0 ==> webDav == old(webDav)
    {
      ghost var original := debrids[..];
      ghost var global := webDav;
      var i := 0;
      while i < debrids.Length
        invariant 0 <= i <= debrids.Length
        invariant debrids[i..] == original[i..]
        invariant i > 0 ==> webDav == ApplyAll(global, original[..i], SplitWorkers(numCPU, debrids.Length)).0
        invariant i > 0 ==> debrids[..i] == ApplyAll(global, original[..i], SplitWorkers(numCPU, debrids.Length)).1
        invariant i == 0 ==> webDav == global
      {
        ghost var perDebrid := SplitWorkers(numCPU, debrids.Length);
        ghost var prev := ApplyAll(global, original[..i], perDebrid);
        assert webDav == prev.0 && debrids[..i] == prev.1 by {
          if i == 0 {
            assert original[..0] == [];
          }
        }
        assert debrids[i] == original[i];
        var updated := UpdateDebrid(debrids[i], numCPU);
        debrids[i] := updated;
        ApplyAllStep(global, original, perDebrid, i);
        assert debrids[..i + 1] == prev.1 + [updated];
        assert debrids[i + 1..] == original[i + 1..];
        i := i + 1;
      }
      assert debrids[..] == debrids[..i];
      assert original == original[..i];
    }

    /** `setDefaults` without the auth-file load: every debrid is rewritten in
        place by `updateDebrid`, then the empty top-level settings take their
        defaults and URLBase is put in normal form. */
    method SetDefaults(numCPU: nat, defaultExtensions: seq<string>)
      requires Valid()
      modifies this, debrids
      ensures Valid()
      ensures debrids == old(debrids) && debrids.Length == old(debrids.Length)
      ensures debrids.Length > 0 ==>
                (webDav, debrids[..]) == ApplyAll(old(webDav), old(debrids[..]), SplitWorkers(numCPU, debrids.Length))
      ensures debrids.Length == 0 ==> webDav == old(webDav)
      ensures forall i :: 0 <= i < debrids.Length ==>
                debrids[i] == UpdatedDebrid(old(webDav), old(debrids[i]), SplitWorkers(numCPU, debrids.Length))
      ensures allowedExt == DefaultExtensions(old(allowedExt), defaultExtensions)
      ensures port == FirstNonEmpty(old(port), old(qbitTorrent.port))
      ensures urlBase == NormalURLBase(old(urlBase))
      ensures repair == old(repair).(strategy := DefaultStrategy(old(repair.strategy)))
      ensures qbitTorrent == old(qbitTorrent)
      ensures minFileSize == old(minFileSize) && maxFileSize == old(maxFileSize)
    {
      ghost var original := debrids[..];
      ghost var global := webDav;
      UpdateDebrids(numCPU);
      if debrids.Length > 0 {
        ApplyAllGlobal(global, original, SplitWorkers(numCPU, debrids.Length));
        ApplyAllDebrids(global, original, SplitWorkers(numCPU, debrids.Length));
      }
      forall i | 0 <= i < debrids.Length
        ensures debrids[i] == UpdatedDebrid(global, original[i], SplitWorkers(numCPU, debrids.Length))
        ensures AliasConsistent(webDav, debrids[i])
      {
        assert debrids[i] == debrids[..][i];
        UpdatedDebridAliasConsistent(global, webDav, original[i], SplitWorkers(numCPU, debrids.Length));
      }

      SetTopLevelDefaults(defaultExtensions);
    }

    /** The rest of `setDefaults`: default extensions, Port from the
        qBittorrent block, URLBase normal form, repair strategy. */
    method SetTopLevelDefaults(defaultExtensions: seq<string>)
      modifies this`allowedExt, this`port, this`urlBase, this`repair
      ensures allowedExt == DefaultExtensions(old(allowedExt), defaultExtensions)
      ensures port == FirstNonEmpty(old(port), qbitTorrent.port)
      ensures urlBase == NormalURLBase(old(urlBase))
      ensures repair == old(repair).(strategy := DefaultStrategy(old(repair.strategy)))
    {
      if |allowedExt| == 0 {
        allowedExt := defaultExtensions;
      }

      port := FirstNonEmpty(port, qbitTorrent.port);

      NormalizeURLBase();

      if repair.strategy == "" {
        repair := repair.(strategy := RepairStrategyPerTorrent);
      }
    }

    /** URLBase: empty becomes "/", then a missing leading and a missing
        trailing slash are added. */
    method NormalizeURLBase()
      modifies this`urlBase
      ensures urlBase == NormalURLBase(old(urlBase))
    {
      NormalURLBaseSteps(urlBase);
      if urlBase == "" {
        urlBase := "/";
      }
      if urlBase[0] != '/' {
        urlBase := "/" + urlBase;
      }
      if urlBase[|urlBase| - 1] != '/' {
        urlBase := urlBase + "/";
      }
    }
  }
}
