/**
 * The tab bar of the terminal application (src/app.rs) as values: the ordered
 * list of tabs, the selected index, the four navigation operations of
 * `TabsState`, and the key handler of `App` that dispatches to them, toggles the
 * help pane and raises the quit flag.
 *
 * The functions here are the specification that the classes in module
 * Application are proved against; the lemmas state what follows from pressing
 * keys one after another.
 */
module TabNav {

  /** The four screens `TabsState::new` pushes, in that order. The model treats
      a tab as an opaque identifier: only its position in the bar matters. */
  datatype TabKind = Review | AddCards | IncRead | Import

  /** The keys `App::keyhandler` distinguishes; `Other` stands for every key it
      passes on untouched. */
  datatype Key = Tab | BackTab | SwapTab | BackSwapTab | F(n: nat) | Alt(c: char) | Other
  {
    /** The keys that move the selection or the selected tab. */
    predicate Navigates() {
      Tab? || BackTab? || SwapTab? || BackSwapTab?
    }
  }

  /** The fields of `TabsState`: the tab list and the selected index. */
  datatype Tabs = Tabs(tabs: seq<TabKind>, index: nat)

  /** The state of `App` that the key handler changes. */
  datatype AppView = AppView(bar: Tabs, shouldQuit: bool, displayHelp: bool)

  /** The invariant every `TabsState` keeps: a non-empty list and an index inside it. */
  predicate InBounds(s: Tabs) {
    0 < |s.tabs| && s.index < |s.tabs|
  }

  /** The state `TabsState::new` builds. */
  function Initial(): Tabs {
    Tabs([Review, AddCards, IncRead, Import], 0)
  }

  /** `Vec::swap`: exchanges two positions and leaves the rest as it was. */
  function Swap(xs: seq<TabKind>, i: nat, j: nat): (r: seq<TabKind>)
    requires i < |xs| && j < |xs|
    ensures |r| == |xs| && r[i] == xs[j] && r[j] == xs[i]
    ensures forall k :: 0 <= k < |xs| && k != i && k != j ==> r[k] == xs[k]
    ensures multiset(r) == multiset(xs)
  {
    xs[i := xs[j]][j := xs[i]]
  }

  /** `TabsState::next`: one step to the right, stopping at the last tab. The
      list must be non-empty, since `len() - 1` is computed on an unsigned type. */
  function Next(s: Tabs): (r: Tabs)
    requires |s.tabs| > 0
    ensures r.tabs == s.tabs
    ensures r.index == s.index + 1 || r.index == s.index
    ensures r.index == s.index + 1 <==> s.index < |s.tabs| - 1
    ensures InBounds(s) ==> InBounds(r)
  {
    if s.index < |s.tabs| - 1 then s.(index := s.index + 1) else s
  }

  /** `TabsState::previous`: one step to the left, stopping at the first tab. */
  function Previous(s: Tabs): (r: Tabs)
    ensures r.tabs == s.tabs
    ensures r.index + 1 == s.index || r.index == s.index
    ensures r.index + 1 == s.index <==> s.index > 0
    ensures InBounds(s) ==> InBounds(r)
  {
    if s.index > 0 then s.(index := s.index - 1) else s
  }

  /** `TabsState::swap_left`: moves the selected tab one place to the left and
      keeps it selected; a no-op on the first tab. `Vec::swap` panics on an
      index past the end, so a non-zero index must lie inside the list. */
  function SwapLeft(s: Tabs): (r: Tabs)
    requires s.index == 0 || s.index < |s.tabs|
    ensures |r.tabs| == |s.tabs| && multiset(r.tabs) == multiset(s.tabs)
    ensures s.index == 0 ==> r == s
    ensures s.index > 0 ==>
      && r.index == s.index - 1
      && r.tabs[r.index] == s.tabs[s.index]
      && r.tabs[s.index] == s.tabs[s.index - 1]
      && forall k :: 0 <= k < |s.tabs| && k != s.index && k != s.index - 1 ==> r.tabs[k] == s.tabs[k]
    ensures InBounds(s) ==> InBounds(r) && r.tabs[r.index] == s.tabs[s.index]
  {
    if s.index == 0 then s
    else Previous(Tabs(Swap(s.tabs, s.index, s.index - 1), s.index))
  }

  /** `TabsState::swap_right`: moves the selected tab one place to the right
      and keeps it selected; a no-op on the last tab. The index must lie inside
      the list: `len() - 1` needs a non-empty list and `Vec::swap` an index in it. */
  function SwapRight(s: Tabs): (r: Tabs)
    requires InBounds(s)
    ensures InBounds(r) && |r.tabs| == |s.tabs| && multiset(r.tabs) == multiset(s.tabs)
    ensures r.tabs[r.index] == s.tabs[s.index]
    ensures s.index == |s.tabs| - 1 ==> r == s
    ensures s.index < |s.tabs| - 1 ==>
      && r.index == s.index + 1
      && r.tabs[s.index] == s.tabs[s.index + 1]
      && forall k :: 0 <= k < |s.tabs| && k != s.index && k != s.index + 1 ==> r.tabs[k] == s.tabs[k]
  {
    if s.index == |s.tabs| - 1 then s
    else Next(Tabs(Swap(s.tabs, s.index, s.index + 1), s.index))
  }

  /** The state-changing branches of `App::keyhandler`. The forwarding of the
      key to the selected tab afterwards is not part of this model. */
  function HandleKey(a: AppView, key: Key): (r: AppView)
    requires InBounds(a.bar)
    ensures InBounds(r.bar) && |r.bar.tabs| == |a.bar.tabs|
    ensures multiset(r.bar.tabs) == multiset(a.bar.tabs)
    ensures key.Tab? ==> r.bar == Next(a.bar)
    ensures key.BackTab? ==> r.bar == Previous(a.bar)
    ensures key.SwapTab? ==> r.bar == SwapRight(a.bar)
    ensures key.BackSwapTab? ==> r.bar == SwapLeft(a.bar)
    ensures key.SwapTab? || key.BackSwapTab? ==> r.bar.tabs[r.bar.index] == a.bar.tabs[a.bar.index]
    ensures key.Tab? || key.BackTab? ==> r.bar.tabs == a.bar.tabs
    ensures !key.Navigates() ==> r.bar == a.bar
    ensures r.displayHelp == (a.displayHelp != (key == F(1)))
    ensures r.shouldQuit == (a.shouldQuit || key == Alt('q'))
  {
    match key
    case Tab => a.(bar := Next(a.bar))
    case BackTab => a.(bar := Previous(a.bar))
    case SwapTab => a.(bar := SwapRight(a.bar))
    case BackSwapTab => a.(bar := SwapLeft(a.bar))
    case F(n) => if n == 1 then a.(displayHelp := !a.displayHelp) else a
    case Alt(c) => if c == 'q' then a.(shouldQuit := true) else a
    case Other => a
  }

  /** Handles a sequence of key presses one after another. Whatever the keys,
      the bar stays in bounds and holds the same tabs; the quit flag is set
      afterwards exactly when it was set before or a quit key was among them. */
  function Run(a: AppView, keys: seq<Key>): (r: AppView)
    requires InBounds(a.bar)
    ensures InBounds(r.bar) && |r.bar.tabs| == |a.bar.tabs|
    ensures multiset(r.bar.tabs) == multiset(a.bar.tabs)
    ensures r.shouldQuit == (a.shouldQuit || Alt('q') in keys)
    decreases |keys|
  {
    if keys == [] then a
    else
      assert Alt('q') in keys <==> keys[0] == Alt('q') || Alt('q') in keys[1..];
      Run(HandleKey(a, keys[0]), keys[1..])
  }

  /** The key `k` pressed `n` times. */
  function Repeat(k: Key, n: nat): (r: seq<Key>)
    ensures |r| == n && forall i :: 0 <= i < n ==> r[i] == k
  {
    if n == 0 then [] else [k] + Repeat(k, n - 1)
  }

  /** The list after the tab at `i` has passed the `k` tabs to its right. */
  function MovedRight(s: seq<TabKind>, i: nat, k: nat): (r: seq<TabKind>)
    requires i + k < |s|
    ensures |r| == |s|
    ensures forall p :: 0 <= p < |s| ==>
      r[p] == if p < i || i + k < p then s[p] else if p == i + k then s[i] else s[p + 1]
  {
    s[..i] + s[i + 1..i + k + 1] + [s[i]] + s[i + k + 1..]
  }

  /** The list after the tab at `i` has passed the `k` tabs to its left. */
  function MovedLeft(s: seq<TabKind>, i: nat, k: nat): (r: seq<TabKind>)
    requires k <= i < |s|
    ensures |r| == |s|
    ensures forall p :: 0 <= p < |s| ==>
      r[p] == if p < i - k || i < p then s[p] else if p == i - k then s[i] else s[p - 1]
  {
    s[..i - k] + [s[i]] + s[i - k..i] + s[i + 1..]
  }

  /** Pressing `k` once and then `n` more times is pressing it `n + 1` times. */
  lemma PressAgain(a: AppView, k: Key, n: nat)
    requires InBounds(a.bar)
    ensures Run(a, Repeat(k, n + 1)) == Run(HandleKey(a, k), Repeat(k, n))
  {
  }

  /** Handling `xs` and then `ys` is handling `xs + ys`. */
  lemma {:induction false} RunAppend(a: AppView, xs: seq<Key>, ys: seq<Key>)
    requires InBounds(a.bar)
    ensures Run(a, xs + ys) == Run(Run(a, xs), ys)
    decreases |xs|
  {
    if xs == [] {
      assert xs + ys == ys;
    } else {
      assert (xs + ys)[0] == xs[0] && (xs + ys)[1..] == xs[1..] + ys;
      RunAppend(HandleKey(a, xs[0]), xs[1..], ys);
    }
  }

  /** `m + n` presses are `m` presses followed by `n`. */
  lemma RepeatAppend(k: Key, m: nat, n: nat)
    ensures Repeat(k, m + n) == Repeat(k, m) + Repeat(k, n)
  {
  }

  /** Carrying a tab no places leaves the list as it is. */
  lemma MovedRightNone(s: seq<TabKind>, i: nat)
    requires i < |s|
    ensures MovedRight(s, i, 0) == s
  {
  }

  /** Carrying a tab no places leaves the list as it is. */
  lemma MovedLeftNone(s: seq<TabKind>, i: nat)
    requires i < |s|
    ensures MovedLeft(s, i, 0) == s
  {
  }

  /** Carrying a tab one place right and then `k` more is carrying it `k + 1`. */
  lemma MovedRightStep(s: seq<TabKind>, i: nat, k: nat)
    requires i + k + 1 < |s|
    ensures MovedRight(Swap(s, i, i + 1), i + 1, k) == MovedRight(s, i, k + 1)
  {
  }

  /** Carrying a tab one place left and then `k` more is carrying it `k + 1`. */
  lemma MovedLeftStep(s: seq<TabKind>, i: nat, k: nat)
    requires k + 1 <= i < |s|
    ensures MovedLeft(Swap(s, i, i - 1), i - 1, k) == MovedLeft(s, i, k + 1)
  {
  }

  /** Pressing Tab `n` times selects the tab `n` places to the right, or the
      last tab if there are fewer; the list itself does not change. */
  lemma {:induction false} TabPresses(a: AppView, n: nat)
    requires InBounds(a.bar)
    ensures Run(a, Repeat(Tab, n)).bar.tabs == a.bar.tabs
    ensures Run(a, Repeat(Tab, n)).bar.index ==
      if a.bar.index + n < |a.bar.tabs| then a.bar.index + n else |a.bar.tabs| - 1
    decreases n
  {
    if n > 0 {
      PressAgain(a, Tab, n - 1);
      TabPresses(HandleKey(a, Tab), n - 1);
    }
  }

  /** Pressing BackTab `n` times selects the tab `n` places to the left, or the
      first tab if there are fewer; the list itself does not change. */
  lemma {:induction false} BackTabPresses(a: AppView, n: nat)
    requires InBounds(a.bar)
    ensures Run(a, Repeat(BackTab, n)).bar.tabs == a.bar.tabs
    ensures Run(a, Repeat(BackTab, n)).bar.index ==
      if n <= a.bar.index then a.bar.index - n else 0
    decreases n
  {
    if n > 0 {
      PressAgain(a, BackTab, n - 1);
      BackTabPresses(HandleKey(a, BackTab), n - 1);
    }
  }

  /** Pressing SwapTab `k` times, with at least `k` tabs to the right of the
      selection, carries the selected tab `k` places to the right; each tab it
      passes moves one place left, the rest stay, and the carried tab remains
      selected. */
  lemma {:induction false} SwapTabPresses(a: AppView, k: nat)
    requires InBounds(a.bar) && a.bar.index + k < |a.bar.tabs|
    ensures Run(a, Repeat(SwapTab, k)).bar == Tabs(MovedRight(a.bar.tabs, a.bar.index, k), a.bar.index + k)
    decreases k
  {
    var s, i := a.bar.tabs, a.bar.index;
    if k == 0 {
      MovedRightNone(s, i);
    } else {
      var b := HandleKey(a, SwapTab);
      PressAgain(a, SwapTab, k - 1);
      SwapTabPresses(b, k - 1);
      MovedRightStep(s, i, k - 1);
    }
  }

  /** Pressing BackSwapTab `k` times, with at least `k` tabs to the left of the
      selection, carries the selected tab `k` places to the left; each tab it
      passes moves one place right, the rest stay, and the carried tab remains
      selected. */
  lemma {:induction false} BackSwapTabPresses(a: AppView, k: nat)
    requires InBounds(a.bar) && k <= a.bar.index
    ensures Run(a, Repeat(BackSwapTab, k)).bar == Tabs(MovedLeft(a.bar.tabs, a.bar.index, k), a.bar.index - k)
    decreases k
  {
    var s, i := a.bar.tabs, a.bar.index;
    if k == 0 {
      MovedLeftNone(s, i);
    } else {
      var b := HandleKey(a, BackSwapTab);
      PressAgain(a, BackSwapTab, k - 1);
      BackSwapTabPresses(b, k - 1);
      MovedLeftStep(s, i, k - 1);
    }
  }

  /** On the last tab SwapTab does nothing, however often it is pressed. */
  lemma {:induction false} SwapTabAtEnd(a: AppView, n: nat)
    requires InBounds(a.bar) && a.bar.index == |a.bar.tabs| - 1
    ensures Run(a, Repeat(SwapTab, n)) == a
    decreases n
  {
    if n > 0 {
      PressAgain(a, SwapTab, n - 1);
      SwapTabAtEnd(HandleKey(a, SwapTab), n - 1);
    }
  }

  /** On the first tab BackSwapTab does nothing, however often it is pressed. */
  lemma {:induction false} BackSwapTabAtStart(a: AppView, n: nat)
    requires InBounds(a.bar) && a.bar.index == 0
    ensures Run(a, Repeat(BackSwapTab, n)) == a
    decreases n
  {
    if n > 0 {
      PressAgain(a, BackSwapTab, n - 1);
      BackSwapTabAtStart(HandleKey(a, BackSwapTab), n - 1);
    }
  }

  /** Pressing SwapTab more times than there are tabs to the right of the
      selection carries the selected tab to the end of the bar. */
  lemma SwapTabPastEnd(a: AppView, k: nat)
    requires InBounds(a.bar) && a.bar.index + k >= |a.bar.tabs|
    ensures Run(a, Repeat(SwapTab, k)).bar ==
      Tabs(MovedRight(a.bar.tabs, a.bar.index, |a.bar.tabs| - 1 - a.bar.index), |a.bar.tabs| - 1)
  {
    var m := |a.bar.tabs| - 1 - a.bar.index;
    var xs, ys := Repeat(SwapTab, m), Repeat(SwapTab, k - m);
    RepeatAppend(SwapTab, m, k - m);
    assert Repeat(SwapTab, k) == xs + ys;
    RunAppend(a, xs, ys);
    var b := Run(a, xs);
    SwapTabPresses(a, m);
    SwapTabAtEnd(b, k - m);
    assert Run(a, Repeat(SwapTab, k)) == b;
  }

  /** Pressing BackSwapTab more times than there are tabs to the left of the
      selection carries the selected tab to the start of the bar. */
  lemma BackSwapTabPastStart(a: AppView, k: nat)
    requires InBounds(a.bar) && k > a.bar.index
    ensures Run(a, Repeat(BackSwapTab, k)).bar == Tabs(MovedLeft(a.bar.tabs, a.bar.index, a.bar.index), 0)
  {
    var i := a.bar.index;
    var xs, ys := Repeat(BackSwapTab, i), Repeat(BackSwapTab, k - i);
    RepeatAppend(BackSwapTab, i, k - i);
    assert Repeat(BackSwapTab, k) == xs + ys;
    RunAppend(a, xs, ys);
    var b := Run(a, xs);
    BackSwapTabPresses(a, i);
    BackSwapTabAtStart(b, k - i);
    assert Run(a, Repeat(BackSwapTab, k)) == b;
  }

  /** Pressing SwapTab `k` times carries the selected tab `k` places to the
      right, or to the end of the bar if there are fewer tabs to its right. */
  lemma SwapTabPressesCapped(a: AppView, k: nat)
    requires InBounds(a.bar)
    ensures var m := if a.bar.index + k < |a.bar.tabs| then k else |a.bar.tabs| - 1 - a.bar.index;
      Run(a, Repeat(SwapTab, k)).bar == Tabs(MovedRight(a.bar.tabs, a.bar.index, m), a.bar.index + m)
  {
    if a.bar.index + k < |a.bar.tabs| {
      SwapTabPresses(a, k);
    } else {
      SwapTabPastEnd(a, k);
    }
  }

  /** Pressing BackSwapTab `k` times carries the selected tab `k` places to
      the left, or to the start of the bar if there are fewer tabs to its left. */
  lemma BackSwapTabPressesCapped(a: AppView, k: nat)
    requires InBounds(a.bar)
    ensures var m := if k <= a.bar.index then k else a.bar.index;
      Run(a, Repeat(BackSwapTab, k)).bar == Tabs(MovedLeft(a.bar.tabs, a.bar.index, m), a.bar.index - m)
  {
    if k <= a.bar.index {
      BackSwapTabPresses(a, k);
    } else {
      BackSwapTabPastStart(a, k);
    }
  }

  /** SwapTab followed by BackSwapTab puts every tab back where it was, unless
      the selection was already on the last tab (then only BackSwapTab acts). */
  lemma SwapRoundTrip(s: Tabs)
    requires InBounds(s) && s.index < |s.tabs| - 1
    ensures SwapLeft(SwapRight(s)) == s
  {
  }

  /** BackSwapTab followed by SwapTab puts every tab back where it was, unless
      the selection was already on the first tab. */
  lemma BackSwapRoundTrip(s: Tabs)
    requires InBounds(s) && s.index > 0
    ensures SwapRight(SwapLeft(s)) == s
  {
  }

  /** Pressing F1 twice leaves the application as it was. */
  lemma HelpToggleTwice(a: AppView)
    requires InBounds(a.bar)
    ensures Run(a, [F(1), F(1)]) == a
  {
  }
}
