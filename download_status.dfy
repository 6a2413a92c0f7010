/**
 * The session flag through which independent call sites learn whether a download is
 * running: one sessionStorage row "ffmpeg-download-status" (the status half of
 * lib/services/wasm-checker.js).
 */
module DownloadStatusFlag {
  import opened Outcomes

  const DOWNLOAD_STATUS_KEY: string := "ffmpeg-download-status"
  const DOWNLOAD_STATUS_DOWNLOADING: string := "downloading"
  const DOWNLOAD_STATUS_COMPLETED: string := "completed"
  const DOWNLOAD_STATUS_IDLE: string := "idle"

  /**
   * `getDownloadStatus` for a raw sessionStorage item: "idle" outside a browser, and
   * "idle" when the row is missing or empty (`getItem(...) || "idle"`).
   */
  function StatusOfItem(inBrowser: bool, item: Option<string>): string
  {
    if !inBrowser then DOWNLOAD_STATUS_IDLE
    else if item.Some? && item.value != "" then item.value
    else DOWNLOAD_STATUS_IDLE
  }

  /** `isDownloadInProgress` for a raw sessionStorage item. */
  predicate InProgressItem(inBrowser: bool, item: Option<string>)
  {
    inBrowser && item == Some(DOWNLOAD_STATUS_DOWNLOADING)
  }

  /** A download is in progress exactly when the status reads "downloading". */
  lemma InProgressIffDownloading(inBrowser: bool, item: Option<string>)
    ensures InProgressItem(inBrowser, item) <==> StatusOfItem(inBrowser, item) == DOWNLOAD_STATUS_DOWNLOADING
  {
  }

  /** After `setDownloadStatus(s)` in a browser the status reads `s` (or "idle" for the empty string); outside a browser it always reads "idle". */
  lemma StatusAfterSet(inBrowser: bool, s: string)
    ensures inBrowser ==> StatusOfItem(inBrowser, Some(s)) == if s == "" then DOWNLOAD_STATUS_IDLE else s
    ensures !inBrowser ==> StatusOfItem(inBrowser, Some(s)) == DOWNLOAD_STATUS_IDLE
    ensures StatusOfItem(inBrowser, None) == DOWNLOAD_STATUS_IDLE
  {
  }

  /** The session's sessionStorage; `inBrowser` is false during server-side rendering (`typeof window === "undefined"`). */
  class SessionStore {
    var items: map<string, string>
    const inBrowser: bool

    constructor (inBrowser: bool)
      ensures this.inBrowser == inBrowser && items == map[]
    {
      this.inBrowser := inBrowser;
      items := map[];
    }

    /** The raw value of the status row, `None` when it was never written. */
    function Item(): (item: Option<string>)
      reads this
      ensures item.Some? <==> DOWNLOAD_STATUS_KEY in items
    {
      if DOWNLOAD_STATUS_KEY in items then Some(items[DOWNLOAD_STATUS_KEY]) else None
    }

    /** `getDownloadStatus`. */
    function GetDownloadStatus(): string
      reads this
    {
      StatusOfItem(inBrowser, Item())
    }

    /** `isDownloadInProgress`. */
    predicate IsDownloadInProgress()
      reads this
    {
      InProgressItem(inBrowser, Item())
    }

    /** `setDownloadStatus`: write the row; does nothing outside a browser. */
    method SetDownloadStatus(status: string)
      modifies this`items
      ensures items == if inBrowser then old(items)[DOWNLOAD_STATUS_KEY := status] else old(items)
      ensures inBrowser ==> Item() == Some(status)
    {
      if inBrowser {
        items := items[DOWNLOAD_STATUS_KEY := status];
      }
    }
  }
}
