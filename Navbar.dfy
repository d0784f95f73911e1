/** The navbar's menu state: the open flag, toggled by the menu button, by
    Cmd/Ctrl+B and by Escape (closing only), opened by a swipe guarded
    against repeats, and closed by the side panel. A toggle reports the new
    state to the parent's `onMenuToggle` callback when there is one; the
    returned `reported` value is that call. */
module Navbar {
  import opened Forms
  import opened Text
  import opened SidePanel

  /** `(e.metaKey || e.ctrlKey) && e.key.toLowerCase() === 'b'`. */
  predicate IsToggleChord(meta: bool, ctrl: bool, key: string)
  {
    (meta || ctrl) && LowerAscii(key) == "b"
  }

  /** Lower-casing gives 'b' exactly for 'b' and 'B'. */
  lemma {:induction false} ToggleKeys(key: string)
    ensures LowerAscii(key) == "b" <==> key == "b" || key == "B"
  {
    if LowerAscii(key) == "b" {
      assert |key| == 1;
      assert key == [key[0]];
    }
  }

  class Navbar {
    const hasMenuToggle: bool
    const panel: SidePanel
    var isMenuOpen: bool
    var isAnimating: bool

    constructor(hasMenuToggle: bool)
      ensures this.hasMenuToggle == hasMenuToggle && fresh(panel)
      ensures !isMenuOpen && !isAnimating
      ensures !panel.isAuthOpen && !panel.closeWaiting
    {
      this.hasMenuToggle := hasMenuToggle;
      panel := new SidePanel();
      isMenuOpen := false;
      isAnimating := false;
    }

    /** `handleToggle`: flips the menu and reports the new state. */
    method HandleToggle() returns (reported: Option<bool>)
      modifies this
      ensures isMenuOpen == !old(isMenuOpen)
      ensures reported == if hasMenuToggle then Some(isMenuOpen) else None
      ensures isAnimating == old(isAnimating)
    {
      isMenuOpen := !isMenuOpen;
      reported := if hasMenuToggle then Some(isMenuOpen) else None;
    }

    /** A key press: Cmd/Ctrl+B toggles the menu and suppresses the browser's
        own action (`prevented`); Escape toggles only an open menu, so it can
        only close it. */
    method KeyDown(meta: bool, ctrl: bool, key: string) returns (prevented: bool, reported: Option<bool>)
      modifies this
      ensures prevented <==> IsToggleChord(meta, ctrl, key)
      ensures IsToggleChord(meta, ctrl, key) ==> isMenuOpen == !old(isMenuOpen)
      ensures key == "Escape" ==> !isMenuOpen
      ensures !IsToggleChord(meta, ctrl, key) && key != "Escape" ==> isMenuOpen == old(isMenuOpen) && reported == None
      ensures reported.Some? <==> hasMenuToggle && isMenuOpen != old(isMenuOpen)
      ensures reported.Some? ==> reported.value == isMenuOpen
      ensures isAnimating == old(isAnimating)
    {
      var wasOpen := isMenuOpen;
      prevented := false;
      reported := None;
      if IsToggleChord(meta, ctrl, key) {
        prevented := true;
        reported := HandleToggle();
      }
      if key == "Escape" && wasOpen {
        assert LowerAscii(key)[0] == 'e';
        reported := HandleToggle();
      }
    }

    /** A swipe starts on the navbar: it opens a closed menu unless an opening
        swipe is already under way, and marks one as under way. */
    method SwipeDown() returns (reported: Option<bool>)
      modifies this
      ensures !old(isMenuOpen) && !old(isAnimating) ==>
        isMenuOpen && isAnimating && reported == (if hasMenuToggle then Some(true) else None)
      ensures old(isMenuOpen) || old(isAnimating) ==>
        isMenuOpen == old(isMenuOpen) && isAnimating == old(isAnimating) && reported == None
    {
      reported := None;
      if !isMenuOpen && !isAnimating {
        isAnimating := true;
        reported := HandleToggle();
      }
    }

    /** The swipe is released. */
    method Release()
      modifies this
      ensures !isAnimating && isMenuOpen == old(isMenuOpen)
    {
      isAnimating := false;
    }

    /** The side panel's `onClose`: closes the menu without reporting to
        `onMenuToggle`. */
    method OnClose()
      modifies this
      ensures !isMenuOpen && isAnimating == old(isAnimating)
    {
      isMenuOpen := false;
    }

    /** The side panel asks to close (a link, the profile link, the overlay or
        an upward swipe): the menu closes now, or when the panel's timeline
        has reversed. */
    method PanelClose(hasTimeline: bool)
      modifies this, panel
      ensures !hasTimeline ==> !isMenuOpen && panel.closeWaiting == old(panel.closeWaiting)
      ensures hasTimeline ==> isMenuOpen == old(isMenuOpen) && panel.closeWaiting
      ensures isAnimating == old(isAnimating) && panel.isAuthOpen == old(panel.isAuthOpen)
    {
      var closeNow := panel.HandleClose(hasTimeline);
      if closeNow {
        OnClose();
      }
    }

    /** The panel's timeline has reversed: a waiting close closes the menu. */
    method PanelReverseComplete()
      modifies this, panel
      ensures old(panel.closeWaiting) ==> !isMenuOpen
      ensures !old(panel.closeWaiting) ==> isMenuOpen == old(isMenuOpen)
      ensures !panel.closeWaiting
      ensures isAnimating == old(isAnimating) && panel.isAuthOpen == old(panel.isAuthOpen)
    {
      var closes := panel.ReverseComplete();
      if closes {
        OnClose();
      }
    }

    /** The visitor presses Login / Signup in the panel: the auth dialog opens
        and the menu closes, now or after the reverse. */
    method PanelAuthOpen(hasTimeline: bool)
      modifies this, panel
      ensures panel.isAuthOpen
      ensures !hasTimeline ==> !isMenuOpen && panel.closeWaiting == old(panel.closeWaiting)
      ensures hasTimeline ==> isMenuOpen == old(isMenuOpen) && panel.closeWaiting
      ensures isAnimating == old(isAnimating)
    {
      var closeNow := panel.HandleAuthOpen(hasTimeline);
      if closeNow {
        OnClose();
      }
    }
  }
}
