# decypharr configuration core in Dafny

This project models decypharr's configuration package, `internal/config/config.go`. decypharr is a
qBittorrent-compatible front end for debrid services. The model covers three things:

- **The file-size window.** `GetMinFileSize`, `GetMaxFileSize` and `IsSizeAllowed` decide whether a
  file of a given size is downloaded.
- **Start-up validation.** `validateDebrids`, `validateQbitTorrent`, `validateRepair`, `ValidateConfig`
  and `NeedsSetup` form an ordered chain of checks, and the first failing check decides the error
  returned.
- **Defaulting.** `updateDebrid` and `setDefaults` rewrite a decoded configuration in place:
  - they fill each debrid's download keys and WebDAV tunables;
  - they merge per-debrid WebDAV directories with the global ones;
  - they put the top-level settings (extensions, port, URL base, repair strategy) in normal form.

Files and modules:

- `types.dfy`, module `ConfigTypes`:
  - the records (`Debrid`, `WebDav`, `QBitTorrent`, `Repair`) and Go's `int64`;
  - the literal defaults ("15s", "40m", "original_no_ext", "3d", "per_torrent", 50 workers per CPU);
  - `FirstNonEmpty`, which is Go's `cmp.Or` on strings.
- `defaults.dfy`, module `Defaults`:
  - the defaulting rules as pure functions;
  - `ApplyAll`, what walking the whole debrid list produces;
  - the lemmas about them: idempotence, alias consistency, which entry wins a merge, and the URL-base
    normal form.
- `configuration.dfy`, module `Configuration`:
  - class `Config`, with the source's fields stored in place (the debrid list is an `array`);
  - the size-window functions;
  - the imperative `UpdateDebrid`, `UpdateDebrids` and `SetDefaults`, each proved equal to the
    functions in `Defaults`;
  - `CopyEntries`, the map-merge loop.
- `validation.dfy`, module `Validation`:
  - the error values and their texts;
  - the validation checks, with the loop over debrids as a method with invariants.

**Map aliasing.** Go maps are references, and `updateDebrid` relies on that. When the global
`WebDav.Directories` map exists, two things happen:

- The merge loop writes each WebDAV debrid's directories into the **global** map.
- The debrid's own `Directories` field becomes that same map object.

So every WebDAV debrid processed earlier observes the entries that later debrids add. When the global map is nil,
each debrid gets a fresh map of its own, and the global field stays nil. The model reproduces this
behaviour exactly:

- A debrid's `Directories` is `Nil`, `Entries(m)` or `SharedWithGlobal`. `SharedWithGlobal` means
  "this is the global map itself", and its entries are always the global block's current entries.
- `Config.Valid()` states the one representation invariant: the global block is never
  `SharedWithGlobal`, and a debrid is `SharedWithGlobal` only when the global map exists.
  - The constructor establishes it. It models a freshly decoded configuration, in which no alias exists.
  - `SetDefaults` preserves it.
- `Defaults.EarlierDebridSeesLaterEntry` exhibits the observable consequence.

Inputs the package obtains from its environment are parameters:

- `runtime.NumCPU()` becomes `numCPU`.
- `ParseSize` becomes `parseSize: string -> Option<int64>`, where `None` is a parse error.
- `getDefaultExtensions()` becomes the sequence `defaultExtensions`.
- The result of `os.Stat(downloadFolder)` becomes `folderMissing`, which holds exactly when
  `os.IsNotExist` holds for the error. Any other lookup failure passes the check, as in the source.
- The value type `WebdavDirectories` is declared outside this file, so the model treats it as opaque.
- The `WebDav` struct is also declared outside this file. Its fields are the ones `updateDebrid` reads
  and writes.

`updateDebrid` divides by `len(c.Debrids)`, so `UpdateDebrid` requires at least one debrid. The
source only calls it from the loop over the debrids. `SetDefaults` covers the empty list too.

## Model

| member | source | states |
|---|---|---|
| ConfigTypes.FirstNonEmpty | internal/config/config.go:350 | the first argument when it is non-empty, otherwise the second; empty only when both are |
| Defaults.SplitWorkers | internal/config/config.go:289-290 | the per-debrid worker share `NumCPU*50/len(Debrids)` is never negative |
| Defaults.DownloadKeys | internal/config/config.go:292-300 | the download keys are never empty; the given keys are kept; with none given the API key alone is used |
| Defaults.Tunable | internal/config/config.go:306-320 | a tunable keeps the debrid's own value, else takes the global value, else the literal fallback; never empty when the fallback is not |
| Defaults.MergedEntries | internal/config/config.go:323-331 | the merged directories hold the keys of both maps; the debrid's entry wins on a shared key, otherwise the global entry survives |
| Defaults.DefaultedWebDav | internal/config/config.go:306-336 | every tunable follows the own/global/"15s","40m","original_no_ext","3d" order; Workers 0 becomes the per-debrid share; directories alias the global map when it exists and are a fresh merged map otherwise; Rc* prefer the debrid's value |
| Defaults.UpdatedDebrid | internal/config/config.go:288-338 | only the download keys and the WebDAV block change; a non-WebDAV debrid keeps its WebDAV block untouched |
| Defaults.GlobalAfter | internal/config/config.go:323-331 | the global block changes only in its directories, and only when the debrid uses WebDAV and the global map exists, becoming the merged map |
| Defaults.UpdatedDebridIgnoresGlobalEntries | internal/config/config.go:306-336 | the debrid's result depends on the global tunables, not on which entries the global map holds |
| Defaults.ApplyAll | internal/config/config.go:341-344 | walking the debrid list yields one result per debrid |
| Defaults.ApplyAllDebrids | internal/config/config.go:341-344 | every rewritten debrid equals `updateDebrid` of the original against the original global tunables, which never change |
| Defaults.ApplyAllGlobal | internal/config/config.go:323-344 | after the walk the global map holds the accumulated entries of all WebDAV debrids in list order; a nil global map stays nil |
| Defaults.UpdatedDebridAliasConsistent | internal/config/config.go:323-332 | a rewritten debrid aliases the global map only if that map exists |
| Defaults.AccumulatedKeys | internal/config/config.go:329-331 | the global map after the walk contains every original global key and every key of every WebDAV debrid |
| Defaults.AccumulatedValue | internal/config/config.go:329-331 | an entry of debrid i survives in the global map unless a later WebDAV debrid sets the same key |
| Defaults.UpdatedDebridIdempotent | internal/config/config.go:288-338 | applying `updateDebrid` twice with the same global block gives the same debrid as once |
| Defaults.AccumulatedOfDefaulted | internal/config/config.go:329-331 | debrids already in normal form add no new global entries |
| Defaults.DefaultedIsFixed | internal/config/config.go:288-338 | an already rewritten debrid is unchanged by a second `updateDebrid` against a global block with the same tunables |
| Defaults.ApplyAllIdempotent | internal/config/config.go:341-344 | running the debrid walk of `setDefaults` a second time changes neither the debrids nor the global block |
| Defaults.SharedDirectoriesAfterAll | internal/config/config.go:323-332 | with a global map, every WebDAV debrid ends up aliasing it, and that map holds the global keys and all of that debrid's keys |
| Defaults.EarlierDebridSeesLaterEntry | internal/config/config.go:323-332 | two WebDAV debrids set the same key: the first debrid, the second debrid and the global map all see the second debrid's value, because they share the global map |
| Defaults.OwnDirectoriesWithoutGlobal | internal/config/config.go:325-332 | with a nil global map a WebDAV debrid gets a fresh map holding exactly its own entries |
| Defaults.NormalURLBase | internal/config/config.go:352-361 | URLBase starts and ends with "/"; an empty URLBase becomes "/"; an already normal one is unchanged; otherwise a slash is only added at the front, the back, or both |
| Defaults.NormalURLBaseSteps | internal/config/config.go:352-361 | the three conditional rewrites of the source compute `NormalURLBase` |
| Defaults.NormalURLBaseIdempotent | internal/config/config.go:352-361 | normalising URLBase twice is the same as once |
| Defaults.DefaultStrategy | internal/config/config.go:364-366 | an empty repair strategy becomes "per_torrent"; a set one is kept |
| Defaults.DefaultExtensions | internal/config/config.go:346-348 | an empty extension list becomes the default list; a non-empty one is kept |
| Configuration.SizeBound | internal/config/config.go:215-237 | an unset or unparseable size setting reads as 0, otherwise as the parsed value |
| Configuration.CopyEntries | internal/config/config.go:329-331 | the loop leaves every key of both maps, the copied map's value winning on a shared key |
| Configuration.Config.constructor | internal/config/config.go:85-105 | a configuration as decoded, with no map alias yet, satisfies `Valid` |
| Configuration.Config.GetMinFileSize | internal/config/config.go:215-225 | the lower bound: 0 when MinFileSize is empty or does not parse, otherwise its parsed value |
| Configuration.Config.GetMaxFileSize | internal/config/config.go:227-237 | the upper bound: 0 when MaxFileSize is empty or does not parse, otherwise its parsed value |
| Configuration.Config.IsSizeAllowed | internal/config/config.go:239-250 | size 0 always passes; any other size passes iff it clears each positive bound |
| Configuration.Config.UnboundedAllowsAll | internal/config/config.go:215-250 | with both bounds unset or unparseable every size passes |
| Configuration.Config.SizeWindow | internal/config/config.go:239-250 | with both bounds positive a size passes iff it is 0 or lies in the closed window [min, max] |
| Configuration.Config.NegativeSizeNeedsNoMinimum | internal/config/config.go:239-250 | a negative size passes iff no lower bound is in force |
| Configuration.Config.UpdateDebrid | internal/config/config.go:288-339 | returns `UpdatedDebrid` of the argument and leaves the global block as `GlobalAfter` says |
| Configuration.Config.DefaultWebDav | internal/config/config.go:306-336 | returns `DefaultedWebDav`; writes the merge into the global map exactly when that map exists |
| Configuration.Config.UpdateDebrids | internal/config/config.go:341-344 | the in-place loop over the array leaves the debrids and the global block as `ApplyAll` says |
| Configuration.Config.SetDefaults | internal/config/config.go:341-366 | preserves `Valid`; every debrid is `updateDebrid` of its original against the original global tunables; extensions, Port, URLBase and strategy take their defaults; qBittorrent block and size settings are unchanged |
| Configuration.Config.SetTopLevelDefaults | internal/config/config.go:346-366 | extensions, Port (from the qBittorrent port when empty), URLBase and repair strategy after defaulting |
| Configuration.Config.NormalizeURLBase | internal/config/config.go:352-361 | the URLBase field becomes `NormalURLBase` of its old value |
| Validation.ConfigError.Message | internal/config/config.go:146-177 | each error's text, "qbittorent" spelling included; never empty; the missing-folder text is the fixed prefix, the folder, then the fixed suffix |
| Validation.EntryError | internal/config/config.go:151-156 | a failing debrid entry reports the API-key error exactly when its key is empty; the folder error is reported only for an entry that lacks a folder |
| Validation.MessageIdentifiesError | internal/config/config.go:144-180 | two errors with the same text are the same error, including the folder named |
| Validation.FirstIncompleteExists | internal/config/config.go:149-157 | a non-empty debrid list that fails validation has exactly one first failing entry |
| Validation.ValidateDebrids | internal/config/config.go:144-160 | passes iff the list is non-empty and every entry has an API key and a folder; an empty list gives "no debrids configured"; otherwise the first failing entry gives the API-key error if its key is empty, else the folder error |
| Validation.ValidateQbitTorrent | internal/config/config.go:162-170 | passes iff the download folder is set and not missing; an empty folder and a missing folder give their own errors, the latter naming the folder |
| Validation.ValidateRepair | internal/config/config.go:172-180 | passes iff repair is disabled or has an interval; the only error is "repair interval is required" |
| Validation.ValidateConfig | internal/config/config.go:182-198 | passes iff all three blocks are acceptable; the debrid error wins over the qBittorrent error, which wins over the repair error |
| Validation.NeedsSetup | internal/config/config.go:277-279 | returns what `ValidateConfig` returns: passes iff the configuration is acceptable, otherwise the debrid error, then the qBittorrent error, then the repair error |
| Validation.FailureIsFirstCheck | internal/config/config.go:182-198 | every unacceptable configuration falls into exactly one of the ordered failure cases |

## Left out

- File and JSON I/O is not modelled: `loadConfig`, `Save`, `createConfig`, `JsonFile`, `AuthFile` and
  `TorrentsFile`. This covers reading, writing and creating the file, unmarshalling, and `filepath.Join`.
- Authentication is not modelled: `GetAuth`, `SaveAuth` and `NeedsAuth`. They read `auth.json` from disk,
  and the last step of `setDefaults`, which loads the auth record, is therefore omitted.
- The process-wide singleton is not modelled: `Get`, `once`, `Reload`, `SetConfigPath` and the
  `os.Exit` that follows a failed load. They concern concurrency and process control.
- Config fields the modelled operations never read or write have no counterpart: BindAddress, LogLevel,
  Arrs, Path, DiscordWebhook and RemoveStalledAfter. The `Arr` record is omitted too.
- UseAuth and Auth have no counterpart either. `setDefaults` writes `Auth` at config.go:369 from
  `GetAuth`, which reads `UseAuth` at :253. Both belong to the auth-file step left out above.
- The bodies of `ParseSize`, `getDefaultExtensions`, the `WebDav` struct and `WebdavDirectories` are
  not part of this model. They appear as the parameters and the opaque type described above.
- `internal/utils/error.go` is not used by the core and is not modelled.
- The model's `int` is unbounded, so a wrap-around of `NumCPU() * 50` is not modelled. No real CPU count reaches it.
- Defaults.SplitWorkers: states only that the share is non-negative. It does not state the
  division bound `share * len <= NumCPU*50 < (share + 1) * len`, which stays implicit in its body.
