/** The consumer panel view: a text view with a left-truncated title and
    double-click-to-copy. */
module UiSelectable {
  import opened Wrappers

  const ELLIPSIS: char := '\U{2026}'

  predicate IsSuffix(t: string, s: string) {
    |t| <= |s| && s[|s| - |t|..] == t
  }

  function Max(a: int, b: int): int {
    if a >= b then a else b
  }

  /** The title text kept for a view whose border leaves `avail` columns: the whole
      title when it fits, otherwise its rightmost part, behind an ellipsis when there
      is room for more than three characters. Its length and being a suffix of the
      full title leave only one possible result. */
  function FitTitle(full: string, avail: int): (r: string)
    ensures |full| <= avail ==> r == full
    ensures |full| > avail ==> |r| == Max(avail, 0)
    ensures |full| > avail && avail > 3 ==> r[0] == ELLIPSIS && IsSuffix(r[1..], full)
    ensures |full| > avail && avail <= 3 ==> IsSuffix(r, full)
  {
    if |full| > avail then
      if avail > 3 then [ELLIPSIS] + full[|full| - avail + 1..]
      else if avail > 0 then full[|full| - avail..]
      else ""
    else full
  }

  /** The characters strings.TrimSpace removes: Unicode White_Space. */
  predicate IsSpace(c: char) {
    c == '\t' || c == '\n' || c == '\U{B}' || c == '\U{C}' || c == '\r' || c == ' '
    || c == '\U{85}' || c == '\U{A0}' || c == '\U{1680}'
    || ('\U{2000}' <= c <= '\U{200A}') || c == '\U{2028}' || c == '\U{2029}'
    || c == '\U{202F}' || c == '\U{205F}' || c == '\U{3000}'
  }

  function TrimLeft(s: string): (r: string)
    ensures IsSuffix(r, s)
    ensures r == [] || !IsSpace(r[0])
    ensures forall i :: 0 <= i < |s| - |r| ==> IsSpace(s[i])
  {
    if s != [] && IsSpace(s[0]) then TrimLeft(s[1..]) else s
  }

  function TrimRight(s: string): (r: string)
    ensures |r| <= |s| && s[..|r|] == r
    ensures r == [] || !IsSpace(r[|r| - 1])
    ensures forall i :: |r| <= i < |s| ==> IsSpace(s[i])
  {
    if s != [] && IsSpace(s[|s| - 1]) then TrimRight(s[..|s| - 1]) else s
  }

  /** strings.TrimSpace: s without its leading and trailing white space. */
  function TrimSpace(s: string): (r: string)
    ensures exists i, j ::
              && 0 <= i <= j <= |s| && r == s[i..j]
              && (forall k :: 0 <= k < i ==> IsSpace(s[k]))
              && (forall k :: j <= k < |s| ==> IsSpace(s[k]))
    ensures r == [] || (!IsSpace(r[0]) && !IsSpace(r[|r| - 1]))
  {
    var l := TrimLeft(s);
    var r := TrimRight(l);
    var i := |s| - |l|;
    assert l == s[i..];
    assert r == s[i..i + |r|];
    r
  }

  /** The mouse actions tview reports. */
  datatype MouseAction =
    | MouseMove
    | LeftDown | LeftUp | LeftClick | LeftDoubleClick
    | MiddleDown | MiddleUp | MiddleClick | MiddleDoubleClick
    | RightDown | RightUp | RightClick | RightDoubleClick
    | ScrollUp | ScrollDown | ScrollLeft | ScrollRight

  /** What the handler does with one event: whether it is consumed, whether the view
      asks for focus, and the text handed to the copy callback, if any. The captured
      primitive is always nil and is not represented. */
  datatype MouseOutcome = MouseOutcome(consumed: bool, focus: bool, copied: Option<string>)

  const Ignored := MouseOutcome(false, false, None)

  /** Whether (px, py) lies in the rectangle at (left, top) of size w by h. */
  predicate Within(left: int, top: int, w: int, h: int, px: int, py: int) {
    !(px < left || px >= left + w || py < top || py >= top + h)
  }

  /** The mouse handler's decision for a view with rectangle (left, top, w, h) whose
      plain text is `text` and which has a copy callback when `canCopy` holds. */
  function Dispatch(left: int, top: int, w: int, h: int, text: string, canCopy: bool,
                    action: MouseAction, px: int, py: int): (r: MouseOutcome)
    ensures !(left <= px < left + w && top <= py < top + h) ==> r == Ignored
    ensures r.consumed <==> (left <= px < left + w && top <= py < top + h) && (action == LeftClick || action == LeftDoubleClick)
    ensures r.focus <==> r.consumed && action == LeftClick
    ensures r.copied.Some? <==> r.consumed && action == LeftDoubleClick && text != "" && canCopy
    ensures r.copied.Some? ==> r.copied.value == TrimSpace(text)
  {
    if !Within(left, top, w, h, px, py) then Ignored
    else match action {
      case LeftClick => MouseOutcome(true, true, None)
      case LeftDoubleClick =>
        MouseOutcome(true, false, if text != "" && canCopy then Some(TrimSpace(text)) else None)
      case _ => Ignored
    }
  }

  class SelectableTextView {
    var fullTitle: string
    /** The title tview draws in the border. */
    var title: string
    /** The view's text as GetText(true) returns it with colour tags removed. */
    var text: string
    /** Whether onTextCopied is set. */
    var canCopy: bool
    /** The rectangle GetRect reports. */
    var x: int
    var y: int
    var width: int
    var height: int

    constructor ()
      ensures fullTitle == "" && title == "" && text == "" && !canCopy
    {
      fullTitle, title, text, canCopy := "", "", "", false;
      x, y, width, height := 0, 0, 15, 10;
    }

    method SetFullTitle(t: string)
      modifies this`fullTitle
      ensures fullTitle == t
    {
      fullTitle := t;
    }

    method SetTextCopiedFunc(present: bool)
      modifies this`canCopy
      ensures canCopy == present
    {
      canCopy := present;
    }

    /** tview's SetRect, as the grid layout calls it. */
    method SetRect(nx: int, ny: int, nw: int, nh: int)
      modifies this`x, this`y, this`width, this`height
      ensures x == nx && y == ny && width == nw && height == nh
    {
      x, y, width, height := nx, ny, nw, nh;
    }

    method SetText(t: string)
      modifies this`text
      ensures text == t
    {
      text := t;
    }

    /** updateTitle, run on every Draw: two columns go to the border and two to the
        padding spaces around the title. */
    method UpdateTitle()
      modifies this`title
      ensures fullTitle == "" ==> title == old(title)
      ensures fullTitle != "" ==> title == " " + FitTitle(fullTitle, width - 4) + " "
    {
      if fullTitle == "" {
        return;
      }
      var available := width - 4;
      var t := fullTitle;
      if |t| > available {
        if available > 3 {
          t := [ELLIPSIS] + t[|t| - available + 1..];
        } else if available > 0 {
          t := t[|t| - available..];
        } else {
          t := "";
        }
      }
      assert t == FitTitle(fullTitle, available);
      title := " " + t + " ";
    }

    /** MouseHandler applied to one event at (px, py). */
    function HandleMouse(action: MouseAction, px: int, py: int): (r: MouseOutcome)
      reads this
      ensures !(x <= px < x + width && y <= py < y + height) ==> r == Ignored
      ensures r.consumed <==> (x <= px < x + width && y <= py < y + height)
                              && (action == LeftClick || action == LeftDoubleClick)
      ensures r.focus <==> r.consumed && action == LeftClick
      ensures r.copied.Some? <==> r.consumed && action == LeftDoubleClick && text != "" && canCopy
      ensures r.copied.Some? ==> r.copied.value == TrimSpace(text)
    {
      Dispatch(x, y, width, height, text, canCopy, action, px, py)
    }
  }
}
