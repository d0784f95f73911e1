/** The side panel: which link groups it shows, how it lays them out with
    separators and the header, which links are marked active, and its close
    and auth-dialog rules. */
module SidePanel {
  import opened Forms

  /** A link: its label text and target. */
  datatype Item = Item(text: string, href: string)

  /** A link group; a protected group is shown to authenticated users only. */
  datatype Group = Group(title: Option<string>, protected: bool, items: seq<Item>)

  /** `visibleLinks`: the unprotected groups, in order, or every group when
      the user is authenticated. */
  function VisibleLinks(groups: seq<Group>, isAuthenticated: bool): (r: seq<Group>)
    ensures isAuthenticated ==> r == groups
    ensures |r| <= |groups|
    ensures forall g :: g in r <==> g in groups && (!g.protected || isAuthenticated)
    ensures forall g :: multiset(r)[g] == if !g.protected || isAuthenticated then multiset(groups)[g] else 0
  {
    if |groups| == 0 then []
    else
      var rest := VisibleLinks(groups[1..], isAuthenticated);
      assert forall g :: g in groups <==> g == groups[0] || g in groups[1..];
      assert groups == [groups[0]] + groups[1..];
      if !groups[0].protected || isAuthenticated then [groups[0]] + rest else rest
  }

  /** `s` is `t` with some elements removed and the rest kept in order. */
  predicate IsSubsequence<T(==)>(s: seq<T>, t: seq<T>)
  {
    if |s| == 0 then true
    else if |t| == 0 then false
    else if s[0] == t[0] then IsSubsequence(s[1..], t[1..])
    else IsSubsequence(s, t[1..])
  }

  /** The visible groups keep the order of the table. */
  lemma {:induction false} VisibleLinksInOrder(groups: seq<Group>, isAuthenticated: bool)
    ensures IsSubsequence(VisibleLinks(groups, isAuthenticated), groups)
  {
    if |groups| > 0 {
      VisibleLinksInOrder(groups[1..], isAuthenticated);
      var rest := VisibleLinks(groups[1..], isAuthenticated);
      if !(!groups[0].protected || isAuthenticated) {
        SkipHead(rest, groups);
      }
    }
  }

  lemma {:induction false} SkipHead<T>(s: seq<T>, t: seq<T>)
    requires |t| > 0 && IsSubsequence(s, t[1..])
    ensures IsSubsequence(s, t)
  {
    if |s| > 0 && s[0] == t[0] {
      SubsequenceTail(s, t[1..]);
    }
  }

  lemma {:induction false} SubsequenceTail<T>(s: seq<T>, t: seq<T>)
    requires |s| > 0 && IsSubsequence(s, t)
    ensures IsSubsequence(s[1..], t)
  {
    if |t| > 0 {
      if s[0] == t[0] {
        SkipHead(s[1..], t);
      } else {
        SubsequenceTail(s, t[1..]);
        SkipHead(s[1..], t);
      }
    }
  }

  /** A link is marked active exactly when it is the current page. */
  predicate IsActive(pathname: string, item: Item)
  {
    pathname == item.href
  }

  /** The header at the foot of the panel: the Login / Signup button for a
      visitor, the profile link, active on '/profile', for a signed-in user. */
  datatype Header = LoginSignup | ProfileLink(active: bool)

  function HeaderFor(isAuthenticated: bool, pathname: string): (h: Header)
    ensures h.LoginSignup? <==> !isAuthenticated
    ensures h.ProfileLink? ==> (h.active <==> pathname == "/profile")
  {
    if !isAuthenticated then LoginSignup else ProfileLink(pathname == "/profile")
  }

  /** A rendered link with its active mark. */
  datatype Link = Link(item: Item, active: bool)

  /** One entry of the rendered panel, top to bottom. */
  datatype Entry = GroupEntry(title: Option<string>, links: seq<Link>) | Separator | HeaderEntry(header: Header)

  function Links(items: seq<Item>, pathname: string): (r: seq<Link>)
    ensures |r| == |items|
    ensures forall j :: 0 <= j < |items| ==> r[j] == Link(items[j], IsActive(pathname, items[j]))
  {
    if |items| == 0 then [] else [Link(items[0], IsActive(pathname, items[0]))] + Links(items[1..], pathname)
  }

  function Render(g: Group, pathname: string): Entry
  {
    GroupEntry(g.title, Links(g.items, pathname))
  }

  /** The visible groups, each followed by a separator unless it is the
      last. */
  function GroupEntries(visible: seq<Group>, pathname: string): (r: seq<Entry>)
    ensures |visible| == 0 ==> r == []
    ensures |visible| > 0 ==> |r| == 2 * |visible| - 1
  {
    if |visible| == 0 then []
    else if |visible| == 1 then [Render(visible[0], pathname)]
    else [Render(visible[0], pathname), Separator] + GroupEntries(visible[1..], pathname)
  }

  /** The whole panel: the visible groups with separators between them, one
      more separator, then the header. */
  function Panel(groups: seq<Group>, isAuthenticated: bool, pathname: string): seq<Entry>
  {
    GroupEntries(VisibleLinks(groups, isAuthenticated), pathname)
      + [Separator, HeaderEntry(HeaderFor(isAuthenticated, pathname))]
  }

  /** Group `i` sits at position `2 i` and every odd position holds a
      separator. */
  lemma {:induction false} GroupEntriesLayout(visible: seq<Group>, pathname: string)
    ensures forall i :: 0 <= i < |visible| ==> GroupEntries(visible, pathname)[2 * i] == Render(visible[i], pathname)
    ensures forall i :: 0 <= i < |visible| - 1 ==> GroupEntries(visible, pathname)[2 * i + 1] == Separator
  {
    if |visible| > 1 {
      GroupEntriesLayout(visible[1..], pathname);
      var r := GroupEntries(visible, pathname);
      var rest := GroupEntries(visible[1..], pathname);
      assert forall k :: 2 <= k < |r| ==> r[k] == rest[k - 2];
      forall i | 1 <= i < |visible| ensures r[2 * i] == Render(visible[i], pathname) {
        assert r[2 * i] == rest[2 * (i - 1)];
        assert visible[1..][i - 1] == visible[i];
      }
      forall i | 1 <= i < |visible| - 1 ensures r[2 * i + 1] == Separator {
        assert r[2 * i + 1] == rest[2 * (i - 1) + 1];
      }
    }
  }

  function CountSeparators(entries: seq<Entry>): (n: nat)
    ensures n <= |entries|
  {
    if |entries| == 0 then 0
    else (if entries[0].Separator? then 1 else 0) + CountSeparators(entries[1..])
  }

  lemma {:induction false} CountSeparatorsAppend(a: seq<Entry>, b: seq<Entry>)
    ensures CountSeparators(a + b) == CountSeparators(a) + CountSeparators(b)
  {
    if |a| > 0 {
      assert (a + b)[1..] == a[1..] + b;
      CountSeparatorsAppend(a[1..], b);
    } else {
      assert a + b == b;
    }
  }

  lemma {:induction false} GroupEntriesSeparators(visible: seq<Group>, pathname: string)
    ensures CountSeparators(GroupEntries(visible, pathname)) == if |visible| == 0 then 0 else |visible| - 1
  {
    if |visible| > 1 {
      var head := [Render(visible[0], pathname), Separator];
      GroupEntriesSeparators(visible[1..], pathname);
      CountSeparatorsAppend(head, GroupEntries(visible[1..], pathname));
      assert CountSeparators(head) == 1 by {
        assert head[1..][1..] == [];
      }
    } else if |visible| == 1 {
      assert GroupEntries(visible, pathname)[1..] == [];
    }
  }

  /** With `n` visible groups the panel has `n - 1` separators between groups
      plus one before the header, and ends with the header. */
  lemma {:induction false} PanelSeparators(groups: seq<Group>, isAuthenticated: bool, pathname: string)
    ensures var n := |VisibleLinks(groups, isAuthenticated)|;
      CountSeparators(Panel(groups, isAuthenticated, pathname)) == (if n == 0 then 0 else n - 1) + 1
    ensures var p := Panel(groups, isAuthenticated, pathname);
      p[|p| - 1] == HeaderEntry(HeaderFor(isAuthenticated, pathname)) && p[|p| - 2] == Separator
  {
    var visible := VisibleLinks(groups, isAuthenticated);
    var tail := [Separator, HeaderEntry(HeaderFor(isAuthenticated, pathname))];
    GroupEntriesSeparators(visible, pathname);
    CountSeparatorsAppend(GroupEntries(visible, pathname), tail);
    assert CountSeparators(tail) == 1 by {
      assert tail[1..][1..] == [];
    }
  }

  /** The side panel's own state: whether it has opened the auth dialog, and
      whether a close callback waits for the reversed timeline (the timeline
      keeps one such callback, a later close replacing an earlier one). */
  class SidePanel {
    var isAuthOpen: bool
    var closeWaiting: bool

    constructor()
      ensures !isAuthOpen && !closeWaiting
    {
      isAuthOpen := false;
      closeWaiting := false;
    }

    /** `handleClose`: without a timeline `onClose` is called at once
        (`closeNow`); with one the timeline is reversed and `onClose` waits
        for it. */
    method HandleClose(hasTimeline: bool) returns (closeNow: bool)
      modifies this
      ensures closeNow <==> !hasTimeline
      ensures closeWaiting == (hasTimeline || old(closeWaiting))
      ensures isAuthOpen == old(isAuthOpen)
    {
      if hasTimeline {
        closeWaiting := true;
        closeNow := false;
      } else {
        closeNow := true;
      }
    }

    /** The reversed timeline completes: the waiting `onClose`, if any, runs
        (`closes`). */
    method ReverseComplete() returns (closes: bool)
      modifies this
      ensures closes == old(closeWaiting) && !closeWaiting
      ensures isAuthOpen == old(isAuthOpen)
    {
      closes := closeWaiting;
      closeWaiting := false;
    }

    /** `handleAuthOpen`: opens the auth dialog and closes the panel. */
    method HandleAuthOpen(hasTimeline: bool) returns (closeNow: bool)
      modifies this
      ensures isAuthOpen
      ensures closeNow <==> !hasTimeline
      ensures closeWaiting == (hasTimeline || old(closeWaiting))
    {
      isAuthOpen := true;
      closeNow := HandleClose(hasTimeline);
    }

    /** The auth dialog reports an open change (the panel passes its own
        setter as the dialog's callback). */
    method AuthOpenChange(open: bool)
      modifies this
      ensures isAuthOpen == open && closeWaiting == old(closeWaiting)
    {
      isAuthOpen := open;
    }

    /** The panel dialog's open-change: a close request runs `handleClose`,
        an open request does nothing. */
    method DialogOpenChange(open: bool, hasTimeline: bool) returns (closeNow: bool)
      modifies this
      ensures closeNow <==> !open && !hasTimeline
      ensures closeWaiting == ((!open && hasTimeline) || old(closeWaiting))
      ensures isAuthOpen == old(isAuthOpen)
    {
      closeNow := false;
      if !open {
        closeNow := HandleClose(hasTimeline);
      }
    }

    /** An upward drag on the panel is reported (it may be reported several
        times during one drag): the swipe observer exists only on a touch
        device, and it closes the panel only when the panel is open and the
        drag went up by more than 10 pixels. */
    method SwipeUp(isTouch: bool, isOpen: bool, deltaY: real, hasTimeline: bool) returns (closeNow: bool)
      modifies this
      ensures !(isTouch && isOpen && deltaY < -10.0) ==> !closeNow && closeWaiting == old(closeWaiting)
      ensures isTouch && isOpen && deltaY < -10.0 ==>
        (closeNow <==> !hasTimeline)
        && closeWaiting == (hasTimeline || old(closeWaiting))
      ensures isAuthOpen == old(isAuthOpen)
    {
      closeNow := false;
      if isTouch && isOpen && deltaY < -10.0 {
        closeNow := HandleClose(hasTimeline);
      }
    }
  }
}
