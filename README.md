# Tab navigation of the speki terminal application

speki is a terminal flashcard and incremental-reading tool. Its top-level
screen is a tab bar: `TabsState` in `src/app.rs` holds the ordered list of
screens (review, add cards, incremental reading, import) and the index of the
selected one, and `App::keyhandler` turns key presses into navigation (Tab,
BackTab), reordering (SwapTab, BackSwapTab), toggling the help pane (F1) and a
quit request (Alt-q).

This project models that state machine in Dafny and proves its properties:

- `tabnav.dfy`, module `TabNav`: the state as values (`Tabs`, `AppView`), the
  operations as functions (`Next`, `Previous`, `SwapLeft`, `SwapRight`,
  `HandleKey`), `Run`, which handles a sequence of key presses, and lemmas about
  repeated presses.
- `application.dfy`, module `Application`: the classes `TabsState` (the tab
  list as an array permuted in place, and the index) and `App` (a `TabsState`
  and the two flags), whose methods are proved to produce exactly the state the
  `TabNav` functions compute from the state before the call.

A tab is an opaque identifier (`TabKind`): only its position in the bar
matters. The keys are the variants `App::keyhandler` distinguishes plus
`Other`, which stands for every other key.

Preconditions follow what the Rust code needs in order not to panic:
`next` computes `len() - 1` on `usize`, so it needs a non-empty list;
`swap_right` also calls `Vec::swap(index, index + 1)`, so it needs the index
inside the list; `swap_left` needs that only when the index is not 0. Every
state reachable from `TabsState::new` meets these (`InBounds`, preserved by
every operation).

## Model

| member | source | states |
|---|---|---|
| TabNav.Swap | src/app.rs:60 | `Vec::swap` exchanges the two positions, keeps every other position and the length, and the result is a permutation (same multiset) of the input |
| TabNav.Next | src/app.rs:44-48 | the index rises by exactly 1 exactly when it is below `len - 1` and otherwise stays; the tab list is unchanged; an index inside the list stays inside it |
| TabNav.Previous | src/app.rs:50-54 | the index falls by exactly 1 exactly when it is above 0 and otherwise stays; the tab list is unchanged; an index inside the list stays inside it |
| TabNav.SwapLeft | src/app.rs:56-62 | at index 0 nothing changes; otherwise the selected tab and its left neighbour trade places, every other position is kept, the index falls by 1 and still selects the tab that was selected; length and multiset of tabs are preserved |
| TabNav.SwapRight | src/app.rs:63-69 | at the last index nothing changes; otherwise the selected tab and its right neighbour trade places, every other position is kept, the index rises by 1 and still selects the tab that was selected; the result stays in bounds and is a permutation |
| TabNav.HandleKey | src/app.rs:114-123 | Tab runs `next`, BackTab `previous`, SwapTab `swap_right` and BackSwapTab `swap_left` on the bar (so SwapTab on the last tab and BackSwapTab on the first change nothing); the bar stays in bounds and a permutation of itself; any non-navigation key leaves the bar alone; the help flag flips exactly on F(1); the quit flag is set exactly on Alt('q') and never cleared |
| TabNav.Run | src/app.rs:114-123 | after any sequence of key presses the bar is still in bounds and holds the same tabs (same multiset, same length), and the quit flag is set exactly when it was already set or Alt('q') was among the keys |
| TabNav.TabPresses | src/app.rs:44-48 | pressing Tab n times selects index min(index + n, len - 1) and leaves the tab list unchanged |
| TabNav.BackTabPresses | src/app.rs:50-54 | pressing BackTab n times selects index max(index - n, 0) and leaves the tab list unchanged |
| TabNav.SwapTabPresses | src/app.rs:63-69 | pressing SwapTab k times with k tabs to the right of the selection carries the selected tab k places right, shifts each tab it passes one place left, keeps all others, and leaves the carried tab selected |
| TabNav.BackSwapTabPresses | src/app.rs:56-62 | pressing BackSwapTab k times with k tabs to the left of the selection carries the selected tab k places left, shifts each tab it passes one place right, keeps all others, and leaves the carried tab selected |
| TabNav.SwapTabAtEnd | src/app.rs:63-66 | on the last tab, any number of SwapTab presses leaves the whole application state unchanged |
| TabNav.BackSwapTabAtStart | src/app.rs:56-59 | on the first tab, any number of BackSwapTab presses leaves the whole application state unchanged |
| TabNav.SwapTabPastEnd | src/app.rs:63-69 | pressing SwapTab more times than there are tabs to the right of the selection carries the selected tab to the last position, keeps it selected, and shifts the tabs it passed one place left |
| TabNav.BackSwapTabPastStart | src/app.rs:56-62 | pressing BackSwapTab more times than there are tabs to the left of the selection carries the selected tab to the first position, keeps it selected, and shifts the tabs it passed one place right |
| TabNav.SwapTabPressesCapped | src/app.rs:63-69 | for any k, k presses of SwapTab carry the selected tab min(k, tabs to its right) places right, keeping it selected |
| TabNav.BackSwapTabPressesCapped | src/app.rs:56-62 | for any k, k presses of BackSwapTab carry the selected tab min(k, tabs to its left) places left, keeping it selected |
| TabNav.RunAppend | src/app.rs:114-123 | handling one key sequence and then another gives the same state as handling their concatenation |
| TabNav.SwapRoundTrip | src/app.rs:56-69 | away from the last tab, `swap_left` undoes `swap_right` exactly (list and index) |
| TabNav.BackSwapRoundTrip | src/app.rs:56-69 | away from the first tab, `swap_right` undoes `swap_left` exactly (list and index) |
| TabNav.HelpToggleTwice | src/app.rs:120 | pressing F1 twice restores the whole application state |
| Application.TabsState.constructor | src/app.rs:30-42 | `TabsState::new` yields exactly four tabs, review, add cards, incremental reading, import, with index 0, in bounds |
| Application.TabsState.Next | src/app.rs:44-48 | the object's new state is `TabNav.Next` of its old state; only `index` may change |
| Application.TabsState.Previous | src/app.rs:50-54 | the object's new state is `TabNav.Previous` of its old state; only `index` may change |
| Application.TabsState.SwapTabs | src/app.rs:60 | the array after the in-place swap is `TabNav.Swap` of the array before |
| Application.TabsState.SwapLeft | src/app.rs:56-62 | the in-place swap followed by `previous` leaves the object in the state `TabNav.SwapLeft` computes |
| Application.TabsState.SwapRight | src/app.rs:63-69 | the in-place swap followed by `next` leaves the object in the state `TabNav.SwapRight` computes |
| Application.App.constructor | src/app.rs:102-111 | a fresh application has the initial tab bar, the requested help flag and no quit request |
| Application.App.KeyHandler | src/app.rs:114-123 | the application's new state is `TabNav.HandleKey` of the old state and the key, and it stays valid; only the flags, the index and the tab array may change |

## Left out

- `App::new` opening the SQLite connection and the audio output stream (src/app.rs:97-100) and the `conn`, `audio`, `audio_handle` and `paths` fields: I/O and foreign calls. Only the initialisation of the tab bar and the two flags is modelled.
- The forwarding of every key to the selected tab (`TabsState::keyhandler`, src/app.rs:71-79, called at src/app.rs:124-125) and the `Tab` trait (src/app.rs:177-196): dynamic dispatch into screens that are not part of this model, which treats each tab as an opaque identifier.
- `App::draw` and `App::render_help` (src/app.rs:128-172): terminal rendering with no state that the key handler reads.
- `MyKey` is defined outside the modelled file; `Key` keeps only the variants the key handler matches on, and `F` carries an unbounded number.
- The main loop that calls the key handler and stops on the quit flag is not part of this model; `Run` keeps handling keys after a quit request.
- src/popups/progress_popup.rs: a widget that reads progress from a blocking channel and renders it (concurrency and UI).
- src/utils/sql/insert.rs: single SQL `INSERT` statements through `rusqlite`, with no logic of their own.
- The spaced-repetition scheduler, dependency graph and incremental-reading pipeline that the application as a whole provides: none of their code is in the modelled files, so there is nothing to check a model against.
