/** Tab cycling and the key handling of the dashboard in src/tui.rs.
    Drawing the screen and polling the terminal are outside the model:
    the key event is an input. */
module Tui {
  import opened Wrappers

  datatype Tab = Summary | Detailed | Timeline

  /** `Tab::index`. */
  function Index(t: Tab): (i: nat)
    ensures i < 3
  {
    match t
    case Summary => 0
    case Detailed => 1
    case Timeline => 2
  }

  /** `Tab::from_index`: indices past the last tab give `Summary`. */
  function FromIndex(i: nat): (t: Tab)
    ensures i < 3 ==> Index(t) == i
    ensures i >= 3 ==> t == Summary
  {
    match i
    case 0 => Summary
    case 1 => Detailed
    case 2 => Timeline
    case _ => Summary
  }

  /** Tabs and their indices are in one-to-one correspondence. */
  lemma IndexRoundTrip(t: Tab, i: nat)
    ensures FromIndex(Index(t)) == t
    ensures i < 3 ==> Index(FromIndex(i)) == i
  {
  }

  /** `Tab::next`: one to the right, wrapping around. */
  function Next(t: Tab): Tab {
    FromIndex((Index(t) + 1) % 3)
  }

  /** `Tab::prev`: one to the left, wrapping around. */
  function Prev(t: Tab): Tab {
    FromIndex((Index(t) + 2) % 3)
  }

  /** The order the tabs cycle through. */
  lemma TabCycle()
    ensures Next(Summary) == Detailed && Next(Detailed) == Timeline && Next(Timeline) == Summary
    ensures Prev(Summary) == Timeline && Prev(Detailed) == Summary && Prev(Timeline) == Detailed
  {
    assert Index(Next(Summary)) == 1 && Index(Next(Detailed)) == 2 && Index(Next(Timeline)) == 0;
    assert Index(Prev(Summary)) == 2 && Index(Prev(Detailed)) == 0 && Index(Prev(Timeline)) == 1;
  }

  /** `next` and `prev` undo each other. */
  lemma NextPrevInverse(t: Tab)
    ensures Next(Prev(t)) == t && Prev(Next(t)) == t
  {
    match t
    case Summary => TabCycle();
    case Detailed => TabCycle();
    case Timeline => TabCycle();
  }

  /** Three steps to the right come full circle. */
  lemma NextThrice(t: Tab)
    ensures Next(Next(Next(t))) == t
  {
    match t
    case Summary => TabCycle();
    case Detailed => TabCycle();
    case Timeline => TabCycle();
  }

  /** Three steps to the left come full circle. */
  lemma PrevThrice(t: Tab)
    ensures Prev(Prev(Prev(t))) == t
  {
    match t
    case Summary => TabCycle();
    case Detailed => TabCycle();
    case Timeline => TabCycle();
  }

  /** No step stays put. */
  lemma StepsMove(t: Tab)
    ensures Next(t) != t && Prev(t) != t
  {
    match t
    case Summary =>
    case Detailed =>
    case Timeline =>
  }

  /** `usize::MAX` on a 64-bit target. */
  const UsizeMax: nat := 0xFFFF_FFFF_FFFF_FFFF

  datatype AppState = AppState(currentTab: Tab, scrollOffset: nat)

  const InitialState := AppState(Summary, 0)

  /** The keys `run_app` distinguishes; `Other` stands for the rest. */
  datatype Key = Char(c: char) | Esc | TabKey | BackTab | Left | Right | Up | Down | Other

  /** The keys the event loop reacts to; every other key is ignored. */
  const HandledKeys: set<Key> :=
    {Char('q'), Esc, Char('1'), Char('2'), Char('3'), TabKey, Right, BackTab, Left, Down, Char('j'), Up, Char('k')}

  /** What one terminal key event does: `None` ends the loop ('q' or Esc);
      otherwise the new state. Releases and repeats (`press` false) are
      ignored. */
  function HandleKey(s: AppState, key: Key, press: bool): (r: Option<AppState>)
    requires s.scrollOffset <= UsizeMax
    ensures r.None? <==> press && (key == Char('q') || key == Esc)
    ensures r.Some? ==> r.value.scrollOffset <= UsizeMax
    ensures r.Some? && (key == TabKey || key == Right) && press ==> r.value == AppState(Next(s.currentTab), 0)
    ensures r.Some? && (key == BackTab || key == Left) && press ==> r.value == AppState(Prev(s.currentTab), 0)
    ensures r.Some? && r.value.currentTab == s.currentTab && r.value.scrollOffset != s.scrollOffset ==>
              key in {Up, Down, Char('j'), Char('k')} || key == TabKey || key == Right || key == BackTab || key == Left
    ensures !press ==> r == Some(s)
    ensures press && (key == Down || key == Char('j')) ==> r == Some(s.(scrollOffset := ScrollDown(s.scrollOffset)))
    ensures press && (key == Up || key == Char('k')) ==> r == Some(s.(scrollOffset := ScrollUp(s.scrollOffset)))
    ensures key !in HandledKeys ==> r == Some(s)
  {
    if !press then Some(s)
    else
      match key
      case Char('q') => None
      case Esc => None
      case Char('1') => Some(s.(currentTab := Summary))
      case Char('2') => Some(s.(currentTab := Detailed))
      case Char('3') => Some(s.(currentTab := Timeline))
      case TabKey => Some(AppState(Next(s.currentTab), 0))
      case Right => Some(AppState(Next(s.currentTab), 0))
      case BackTab => Some(AppState(Prev(s.currentTab), 0))
      case Left => Some(AppState(Prev(s.currentTab), 0))
      case Down => Some(s.(scrollOffset := ScrollDown(s.scrollOffset)))
      case Char('j') => Some(s.(scrollOffset := ScrollDown(s.scrollOffset)))
      case Up => Some(s.(scrollOffset := ScrollUp(s.scrollOffset)))
      case Char('k') => Some(s.(scrollOffset := ScrollUp(s.scrollOffset)))
      case _ => Some(s)
  }

  /** `saturating_add(1)` on `usize`. */
  function ScrollDown(offset: nat): (r: nat)
    requires offset <= UsizeMax
    ensures r <= UsizeMax && r >= offset
    ensures offset < UsizeMax ==> r == offset + 1
    ensures offset == UsizeMax ==> r == offset
  {
    if offset < UsizeMax then offset + 1 else offset
  }

  /** `saturating_sub(1)` on `usize`. */
  function ScrollUp(offset: nat): (r: nat)
    ensures r <= offset
    ensures offset > 0 ==> r == offset - 1
    ensures offset == 0 ==> r == 0
  {
    if offset > 0 then offset - 1 else 0
  }

  /** Scrolling down then up returns to where it was, short of the cap. */
  lemma ScrollDownUp(offset: nat)
    requires offset < UsizeMax
    ensures ScrollUp(ScrollDown(offset)) == offset
    ensures offset > 0 ==> ScrollDown(ScrollUp(offset)) == offset
  {
  }

  /** The number keys pick a tab and leave the scroll position alone;
      any key not listed in `run_app` changes nothing. */
  lemma NumberKeys(s: AppState)
    requires s.scrollOffset <= UsizeMax
    ensures HandleKey(s, Char('1'), true) == Some(AppState(Summary, s.scrollOffset))
    ensures HandleKey(s, Char('2'), true) == Some(AppState(Detailed, s.scrollOffset))
    ensures HandleKey(s, Char('3'), true) == Some(AppState(Timeline, s.scrollOffset))
    ensures HandleKey(s, Other, true) == Some(s) && HandleKey(s, Char('x'), true) == Some(s)
  {
  }

  /** Tab then BackTab lands back on the same tab, scrolled to the top. */
  lemma TabBackTab(s: AppState)
    requires s.scrollOffset <= UsizeMax
    ensures var t := HandleKey(s, TabKey, true).value;
            HandleKey(t, BackTab, true) == Some(AppState(s.currentTab, 0))
  {
    NextPrevInverse(s.currentTab);
  }

  /** The state after a sequence of key presses, or `None` once one of
      them quits. */
  function Keys(s: AppState, keys: seq<Key>): (r: Option<AppState>)
    requires s.scrollOffset <= UsizeMax
    ensures r.Some? ==> r.value.scrollOffset <= UsizeMax
    decreases |keys|
  {
    if |keys| == 0 then Some(s)
    else
      match HandleKey(s, keys[0], true)
      case None => None
      case Some(t) => Keys(t, keys[1..])
  }

  /** No key event other than a press of 'q' or Esc ends the loop. */
  lemma {:induction false} NoQuitNoExit(s: AppState, keys: seq<Key>)
    requires s.scrollOffset <= UsizeMax
    requires forall k :: 0 <= k < |keys| ==> keys[k] != Char('q') && keys[k] != Esc
    ensures Keys(s, keys).Some?
    decreases |keys|
  {
    if |keys| > 0 {
      NoQuitNoExit(HandleKey(s, keys[0], true).value, keys[1..]);
    }
  }
}
