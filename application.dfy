/**
 * The objects of src/app.rs whose fields the key handler updates in place:
 * `TabsState`, which owns the tab list and the selected index, and `App`,
 * which owns a `TabsState` and the quit and help flags. Every method is proved
 * to leave the object in the state the matching function of module TabNav
 * computes from the state before the call.
 */
module Application {
  import opened TabNav

  /** `TabsState`. The tab list never changes length after construction, so it
      is an array that the swap methods permute in place. */
  class TabsState {
    var tabs: array<TabKind>
    var index: nat

    /** The tab bar as a value. */
    function View(): Tabs
      reads this, tabs
    {
      Tabs(tabs[..], index)
    }

    /** The list is non-empty and the index selects one of its tabs. */
    ghost predicate Valid()
      reads this, tabs
    {
      InBounds(View())
    }

    /** `TabsState::new`: the review, add-card, incremental-reading and import
        screens, in that order, with the first one selected. */
    constructor ()
      ensures Valid() && fresh(tabs)
      ensures View() == Initial()
      ensures tabs.Length == 4 && index == 0
    {
      tabs := new TabKind[4] [Review, AddCards, IncRead, Import];
      index := 0;
    }

    /** `TabsState::next`. */
    method Next()
      requires tabs.Length > 0
      modifies this`index
      ensures View() == TabNav.Next(old(View()))
    {
      if index < tabs.Length - 1 {
        index := index + 1;
      }
    }

    /** `TabsState::previous`. */
    method Previous()
      modifies this`index
      ensures View() == TabNav.Previous(old(View()))
    {
      if index > 0 {
        index := index - 1;
      }
    }

    /** `Vec::swap` on the tab list. */
    method SwapTabs(i: nat, j: nat)
      requires i < tabs.Length && j < tabs.Length
      modifies tabs
      ensures tabs[..] == Swap(old(tabs[..]), i, j)
    {
      var t := tabs[i];
      tabs[i] := tabs[j];
      tabs[j] := t;
    }

    /** `TabsState::swap_left`: swaps the selected tab with its left
        neighbour, then selects the neighbour's old position. */
    method SwapLeft()
      requires index == 0 || index < tabs.Length
      modifies this`index, tabs
      ensures View() == TabNav.SwapLeft(old(View()))
    {
      if index == 0 {
        return;
      }
      SwapTabs(index, index - 1);
      Previous();
    }

    /** `TabsState::swap_right`: swaps the selected tab with its right
        neighbour, then selects the neighbour's old position. */
    method SwapRight()
      requires Valid()
      modifies this`index, tabs
      ensures View() == TabNav.SwapRight(old(View()))
    {
      if index == tabs.Length - 1 {
        return;
      }
      SwapTabs(index, index + 1);
      Next();
    }
  }

  /** `App`, reduced to the fields its key handler changes. */
  class App {
    var tabs: TabsState
    var shouldQuit: bool
    var displayHelp: bool

    /** The application state as a value. */
    function View(): AppView
      reads this, tabs, tabs.tabs
    {
      AppView(tabs.View(), shouldQuit, displayHelp)
    }

    ghost predicate Valid()
      reads this, tabs, tabs.tabs
    {
      tabs.Valid()
    }

    /** The field initialisation of `App::new`: a fresh tab bar, the help
        pane as the caller asks, and no quit request. */
    constructor (displayHelp: bool)
      ensures Valid() && fresh(tabs) && fresh(tabs.tabs)
      ensures View() == AppView(Initial(), false, displayHelp)
    {
      tabs := new TabsState();
      this.displayHelp := displayHelp;
      shouldQuit := false;
    }

    /** `App::keyhandler`, up to the forwarding of the key to the selected tab. */
    method KeyHandler(key: Key)
      requires Valid()
      modifies this`shouldQuit, this`displayHelp, tabs`index, tabs.tabs
      ensures Valid()
      ensures View() == HandleKey(old(View()), key)
    {
      match key
      case Tab => tabs.Next();
      case BackTab => tabs.Previous();
      case SwapTab => tabs.SwapRight();
      case BackSwapTab => tabs.SwapLeft();
      case F(n) =>
        if n == 1 {
          displayHelp := !displayHelp;
        }
      case Alt(c) =>
        if c == 'q' {
          shouldQuit := true;
        }
      case Other =>
    }
  }
}
