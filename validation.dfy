/** Start-up validation of a configuration: an ordered chain of checks in
    which the first failing check decides the error reported. */
module Validation {
  import opened ConfigTypes
  import opened Configuration

  datatype ConfigError =
    | NoDebrids
    | MissingAPIKey
    | MissingDebridFolder
    | MissingDownloadFolder
    | DownloadFolderNotFound(folder: string)
    | MissingRepairInterval
  {
    /** The text of the error the source returns. A missing-folder text
        carries the folder between its fixed prefix and suffix. */
    function Message(): (text: string)
      ensures text != ""
      ensures DownloadFolderNotFound? ==>
                && |text| == 43 + |folder|
                && text[..27] == "qbittorent download folder("
                && text[27..|text| - 16] == folder
                && text[|text| - 16..] == ") does not exist"
    {
      match this
      case NoDebrids => "no debrids configured"
      case MissingAPIKey => "debrid api key is required"
      case MissingDebridFolder => "debrid folder is required"
      case MissingDownloadFolder => "qbittorent download folder is required"
      case DownloadFolderNotFound(folder) => "qbittorent download folder(" + folder + ") does not exist"
      case MissingRepairInterval => "repair interval is required"
    }
  }

  /** Callers only see the error text, and the text determines the error,
      including the folder a missing-folder error names. */
  lemma MessageIdentifiesError(e1: ConfigError, e2: ConfigError)
    requires e1.Message() == e2.Message()
    ensures e1 == e2
  {
  }

  /** A Go `error` result: nil or one error. */
  datatype Outcome = Pass | Fail(error: ConfigError)

  predicate DebridComplete(d: Debrid)
  {
    d.apiKey != "" && d.folder != ""
  }

  /** Entry `i` is the first debrid that fails a field check. */
  predicate FirstIncomplete(ds: seq<Debrid>, i: int)
  {
    && 0 <= i < |ds|
    && !DebridComplete(ds[i])
    && forall j :: 0 <= j < i ==> DebridComplete(ds[j])
  }

  predicate DebridsAcceptable(ds: seq<Debrid>)
  {
    |ds| > 0 && forall i :: 0 <= i < |ds| ==> DebridComplete(ds[i])
  }

  /** The error a failing debrid entry produces: the API key is checked first. */
  function EntryError(d: Debrid): (e: ConfigError)
    ensures e == MissingAPIKey || e == MissingDebridFolder
    ensures e == MissingAPIKey <==> d.apiKey == ""
    ensures !DebridComplete(d) && e == MissingDebridFolder ==> d.folder == ""
  {
    if d.apiKey == "" then MissingAPIKey else MissingDebridFolder
  }

  /** A non-empty list that is not acceptable has a first failing entry, and
      only one. */
  lemma {:induction false} FirstIncompleteExists(ds: seq<Debrid>)
    requires |ds| > 0 && !DebridsAcceptable(ds)
    ensures exists i :: FirstIncomplete(ds, i)
    ensures forall i, j :: FirstIncomplete(ds, i) && FirstIncomplete(ds, j) ==> i == j
  {
    var i := 0;
    while DebridComplete(ds[i])
      invariant 0 <= i < |ds|
      invariant forall j :: 0 <= j < i ==> DebridComplete(ds[j])
      decreases |ds| - i
    {
      if i + 1 == |ds| {
        assert DebridsAcceptable(ds);
        assert false;
      }
      i := i + 1;
    }
    assert FirstIncomplete(ds, i);
  }

  /** `validateDebrids`: the list must be non-empty and every entry must have
      an API key and a folder; the first offending entry decides the error. */
  method ValidateDebrids(debrids: seq<Debrid>) returns (r: Outcome)
    ensures r == Pass <==> DebridsAcceptable(debrids)
    ensures |debrids| == 0 ==> r == Fail(NoDebrids)
    ensures forall i :: FirstIncomplete(debrids, i) ==> r == Fail(EntryError(debrids[i]))
  {
    if |debrids| == 0 {
      return Fail(NoDebrids);
    }
    var i := 0;
    while i < |debrids|
      invariant 0 <= i <= |debrids|
      invariant forall j :: 0 <= j < i ==> DebridComplete(debrids[j])
    {
      if debrids[i].apiKey == "" {
        assert FirstIncomplete(debrids, i);
        return Fail(MissingAPIKey);
      }
      if debrids[i].folder == "" {
        assert FirstIncomplete(debrids, i);
        return Fail(MissingDebridFolder);
      }
      i := i + 1;
    }
    return Pass;
  }

  /** `validateQbitTorrent`. `folderMissing` stands for the file-system
      answer "the download folder does not exist"; any other outcome of that
      lookup lets the check pass. */
  function ValidateQbitTorrent(q: QBitTorrent, folderMissing: bool): (r: Outcome)
    ensures r == Pass <==> q.downloadFolder != "" && !folderMissing
    ensures q.downloadFolder == "" ==> r == Fail(MissingDownloadFolder)
    ensures q.downloadFolder != "" && folderMissing ==> r == Fail(DownloadFolderNotFound(q.downloadFolder))
  {
    if q.downloadFolder == "" then Fail(MissingDownloadFolder)
    else if folderMissing then Fail(DownloadFolderNotFound(q.downloadFolder))
    else Pass
  }

  /** `validateRepair`: a disabled repair block is never checked. */
  function ValidateRepair(repair: Repair): (r: Outcome)
    ensures r == Pass <==> !repair.enabled || repair.interval != ""
    ensures r != Pass ==> r == Fail(MissingRepairInterval)
  {
    if !repair.enabled then Pass
    else if repair.interval == "" then Fail(MissingRepairInterval)
    else Pass
  }

  /** Everything start-up validation demands of a configuration. */
  predicate ConfigAcceptable(debrids: seq<Debrid>, q: QBitTorrent, repair: Repair, folderMissing: bool)
  {
    && DebridsAcceptable(debrids)
    && q.downloadFolder != "" && !folderMissing
    && (!repair.enabled || repair.interval != "")
  }

  /** The outcome of the validation chain: it passes exactly when the
      configuration is acceptable; otherwise the debrid error comes first,
      then the qBittorrent error, then the repair error. */
  predicate ChainOutcome(ds: seq<Debrid>, q: QBitTorrent, repair: Repair, folderMissing: bool, r: Outcome)
  {
    && (r == Pass <==> ConfigAcceptable(ds, q, repair, folderMissing))
    && (|ds| == 0 ==> r == Fail(NoDebrids))
    && (forall i :: 0 <= i < |ds| && FirstIncomplete(ds, i) ==> r == Fail(EntryError(ds[i])))
    && (DebridsAcceptable(ds) && ValidateQbitTorrent(q, folderMissing).Fail? ==>
          r == ValidateQbitTorrent(q, folderMissing))
    && (DebridsAcceptable(ds) && ValidateQbitTorrent(q, folderMissing) == Pass ==>
          r == ValidateRepair(repair))
  }

  /** `ValidateConfig`: debrids, then the qBittorrent block, then repair. */
  method ValidateConfig(c: Config, folderMissing: bool) returns (r: Outcome)
    ensures ChainOutcome(c.debrids[..], c.qbitTorrent, c.repair, folderMissing, r)
  {
    r := ValidateDebrids(c.debrids[..]);
    if r.Fail? {
      return;
    }
    r := ValidateQbitTorrent(c.qbitTorrent, folderMissing);
    if r.Fail? {
      return;
    }
    r := ValidateRepair(c.repair);
  }

  /** `NeedsSetup` is `ValidateConfig` on the receiver. It is a method of
      `Config` in the source; it lives here because `Validation` imports
      `Configuration`, and the reverse import would be a module cycle. */
  method NeedsSetup(c: Config, folderMissing: bool) returns (r: Outcome)
    ensures ChainOutcome(c.debrids[..], c.qbitTorrent, c.repair, folderMissing, r)
  {
    r := ValidateConfig(c, folderMissing);
  }

  /** The error chain is exhaustive: a configuration that is not acceptable
      falls into exactly one of the ordered failure cases. */
  lemma FailureIsFirstCheck(debrids: seq<Debrid>, q: QBitTorrent, repair: Repair, folderMissing: bool)
    requires !ConfigAcceptable(debrids, q, repair, folderMissing)
    ensures || |debrids| == 0
            || (exists i :: FirstIncomplete(debrids, i))
            || (DebridsAcceptable(debrids) && ValidateQbitTorrent(q, folderMissing).Fail?)
            || (DebridsAcceptable(debrids) && ValidateQbitTorrent(q, folderMissing) == Pass
                && ValidateRepair(repair) == Fail(MissingRepairInterval))
    // The cases exclude each other: the last two need an acceptable, hence
    // non-empty and complete, list and differ in the qBittorrent outcome.
    ensures |debrids| == 0 ==> forall i :: !FirstIncomplete(debrids, i)
    ensures (exists i :: FirstIncomplete(debrids, i)) ==> !DebridsAcceptable(debrids)
  {
    if |debrids| > 0 && !DebridsAcceptable(debrids) {
      FirstIncompleteExists(debrids);
    }
  }
}
