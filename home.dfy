/** The home screen's trend popup, shown once per browser session. */
module Home {
  import opened Wrappers
  import opened Storage

  const TrendPopupKey: string := "trend_popup_seen"

  /** The popup's initial visibility: shown unless a working read finds exactly 'true'. */
  predicate ShowsPopup(session: map<string, string>, readFails: bool) {
    !ReadsTrue(session, TrendPopupKey, readFails)
  }

  class HomePage {
    var showTrendPopup: bool
    const session: KeyValueStore

    /** Mounting the page reads the flag from `sessionStorage`; a throwing read shows the popup. */
    constructor (session: KeyValueStore, readFails: bool)
      ensures this.session == session
      ensures showTrendPopup == ShowsPopup(session.entries, readFails)
    {
      this.session := session;
      var threw, value := session.GetItem(TrendPopupKey, readFails);
      showTrendPopup := threw || value != Some("true");
    }

    /** `closeTrendPopup`: writes the flag, ignoring a throw, and hides the popup either way. */
    method CloseTrendPopup(writeFails: bool)
      modifies this, session
      ensures !showTrendPopup
      ensures session.entries == if writeFails then old(session.entries) else old(session.entries)[TrendPopupKey := "true"]
    {
      var _ := session.SetItem(TrendPopupKey, "true", writeFails);
      showTrendPopup := false;
    }
  }

  /**
   * Closing the popup with working storage and mounting the page again in the
   * same session, with a working read, does not show it; if the write threw
   * the popup comes back unless the flag was already set.
   */
  method CloseThenRemount(session: KeyValueStore, firstReadFails: bool, writeFails: bool) returns (again: HomePage)
    modifies session
    ensures !writeFails ==> !again.showTrendPopup
    ensures writeFails ==> again.showTrendPopup == ShowsPopup(old(session.entries), false)
  {
    var page := new HomePage(session, firstReadFails);
    page.CloseTrendPopup(writeFails);
    again := new HomePage(session, false);
  }
}
