/** The terminal UI: window panels laid out as grids of consumer views, window
    switching, flashing changed views and the throughput status bar. */
module UiApp {
  import opened Wrappers
  import opened GoInt
  import opened Config
  import opened MonitorPoller
  import opened MonitorThroughput
  import opened UiSelectable
  import opened UiFlash

  const DEFAULT_COLUMNS: int := 4

  /** DefaultTheme's background and flash colours. */
  const BACKGROUND: Color := Rgb(24, 24, 37)
  const FLASH: Color := Rgb(80, 120, 180)

  /** One window of the dashboard: its name, the requested number of grid columns
      and the consumers it shows. */
  datatype WindowConfig = WindowConfig(name: string, columns: int, consumers: seq<ConsumerRef>)

  /** The "name (position/total) | " prefix a status bar carries when there are
      several windows. */
  datatype Prefix = NoPrefix | PanelPrefix(name: string, position: int, total: int)

  /** The status bar texts. */
  datatype StatusText =
    | Help(prefix: Prefix)
    | MeasuringText
    | Done(prefix: Prefix)
    | WindowTitle(name: string, position: int, total: int)

  /** An item added to a window's grid. */
  datatype GridItem =
    | StatusItem(row: int, col: int, rowSpan: int, colSpan: int)
    | ViewItem(view: SelectableTextView?, row: int, col: int)

  datatype Cell = Cell(row: int, col: int)

  // ---------------------------------------------------------------------------
  // Layout arithmetic

  /** The grid's column count: the configured one when positive, else four. */
  function EffectiveColumns(configured: int): (c: int)
    ensures c >= 1
    ensures configured > 0 ==> c == configured
    ensures configured <= 0 ==> c == DEFAULT_COLUMNS
  {
    if configured <= 0 then DEFAULT_COLUMNS else configured
  }

  /** Rows of views; the numerator is never negative, so Go's integer division
      agrees with Dafny's. */
  function RowCount(n: nat, columns: int): nat
    requires columns > 0
  {
    (n + columns - 1) / columns
  }

  /** The row count is the ceiling of n / columns: enough rows for every view, and
      no row more. */
  lemma {:induction false} RowCountIsCeiling(n: nat, columns: int)
    requires columns > 0
    ensures RowCount(n, columns) * columns >= n
    ensures RowCount(n, columns) > 0 ==> (RowCount(n, columns) - 1) * columns < n
    ensures RowCount(n, columns) == 0 <==> n == 0
  {
    var r := RowCount(n, columns);
    assert n + columns - 1 == r * columns + (n + columns - 1) % columns;
    assert (r - 1) * columns == r * columns - columns;
  }

  /** newWindowPanel's grid sizes: `rows` equal rows of views plus a status row of
      height one, and `columns` equal columns. */
  method GridSizes(numConsumers: nat, configured: int) returns (columns: int, rows: int, rowSizes: array<int>, colSizes: array<int>)
    ensures columns == EffectiveColumns(configured) && rows == RowCount(numConsumers, columns)
    ensures fresh(rowSizes) && fresh(colSizes)
    ensures rowSizes.Length == rows + 1 && rowSizes[rows] == 1
    ensures forall i :: 0 <= i < rows ==> rowSizes[i] == 0
    ensures colSizes.Length == columns
    ensures forall i :: 0 <= i < columns ==> colSizes[i] == 0
  {
    columns := configured;
    if columns <= 0 {
      columns := DEFAULT_COLUMNS;
    }
    rows := (numConsumers + columns - 1) / columns;
    rowSizes := new int[rows + 1];
    for i := 0 to rows
      invariant forall k :: 0 <= k < i ==> rowSizes[k] == 0
    {
      rowSizes[i] := 0;
    }
    rowSizes[rows] := 1;
    colSizes := new int[columns];
    for i := 0 to columns
      invariant rowSizes[rows] == 1 && forall k :: 0 <= k < rows ==> rowSizes[k] == 0
      invariant forall k :: 0 <= k < i ==> colSizes[k] == 0
    {
      colSizes[i] := 0;
    }
  }

  /** SetupViews' placement as written: row i / Columns and column i % Columns with
      the configured Columns, not the defaulted one. Go's division truncates toward
      zero, and a zero divisor is a run-time panic, shown here as None. */
  function RawCell(i: nat, configured: int): (c: Option<Cell>)
    ensures c.None? <==> configured == 0
    ensures configured > 0 ==> c == Some(Cell(i / configured, i % configured))
  {
    if configured == 0 then None else Some(Cell(GoQuot(i, configured), GoRem(i, configured)))
  }

  /** With Columns = 0 the grid has four columns, yet placing the first view panics. */
  lemma {:induction false} RawCellZeroColumnsPanics()
    ensures EffectiveColumns(0) == 4
    ensures RawCell(0, 0) == None
  {
  }

  /** With Columns = -1 the grid has four columns and one row for three views, yet the
      third view is placed at row -2, outside the grid. */
  lemma {:induction false} RawCellNegativeColumnsOutside()
    ensures EffectiveColumns(-1) == 4 && RowCount(3, EffectiveColumns(-1)) == 1
    ensures RawCell(2, -1) == Some(Cell(-2, 0))
  {
    assert GoQuot(2, -1) == -2;
    assert GoRem(2, -1) == 0;
  }

  /** Placement with the grid's own column count. */
  function GridCell(i: nat, columns: int): Cell
    requires columns > 0
  {
    Cell(i / columns, i % columns)
  }

  /** Each of the n views gets a cell inside the rows-by-columns grid of views, no
      two views share a cell, and where Columns is positive the placement is the one
      written in SetupViews. */
  lemma {:induction false} GridCellPlacement(n: nat, configured: int)
    ensures var c := EffectiveColumns(configured);
      && (forall i :: 0 <= i < n ==>
            0 <= GridCell(i, c).row < RowCount(n, c) && 0 <= GridCell(i, c).col < c)
      && (forall i, j :: 0 <= i < j < n ==> GridCell(i, c) != GridCell(j, c))
      && (configured > 0 ==> forall i :: 0 <= i < n ==> RawCell(i, configured) == Some(GridCell(i, c)))
  {
    var c := EffectiveColumns(configured);
    forall i | 0 <= i < n
      ensures 0 <= GridCell(i, c).row < RowCount(n, c) && 0 <= GridCell(i, c).col < c
    {
      CellInGrid(i, n, c);
    }
    forall i, j | 0 <= i < j < n
      ensures GridCell(i, c) != GridCell(j, c)
    {
      if GridCell(i, c) == GridCell(j, c) {
        CellDetermines(i, j, c);
      }
    }
  }

  lemma {:induction false} CellInGrid(i: nat, n: nat, c: int)
    requires i < n && c > 0
    ensures 0 <= i / c < RowCount(n, c) && 0 <= i % c < c
  {
    var q, r := i / c, RowCount(n, c);
    RowCountIsCeiling(n, c);
    assert q * c <= i by {
      assert i == c * q + i % c;
    }
    if q >= r {
      MulMonotone(r, q, c);
      assert false;
    }
  }

  lemma {:induction false} MulMonotone(a: int, b: int, c: int)
    requires a <= b && c > 0
    ensures a * c <= b * c
  {
    assert b * c == a * c + (b - a) * c;
  }

  /** A cell determines its index. */
  lemma {:induction false} CellDetermines(i: nat, j: nat, c: int)
    requires c > 0 && GridCell(i, c) == GridCell(j, c)
    ensures i == j
  {
    assert i == c * (i / c) + i % c;
    assert j == c * (j / c) + j % c;
  }

  // ---------------------------------------------------------------------------
  // Lookup maps and the flash plan

  /** The "stream/consumer" map of the first n states of a batch; a later state with
      the same key overwrites an earlier one. */
  function StateMapUpTo(states: seq<ConsumerState>, n: nat): map<string, ConsumerState>
    requires n <= |states|
  {
    if n == 0 then map[] else StateMapUpTo(states, n - 1)[Key(states[n - 1].ref) := states[n - 1]]
  }

  /** The keys of the state map are the keys of the batch. */
  lemma {:induction false} StateMapKeys(states: seq<ConsumerState>, n: nat)
    requires n <= |states|
    ensures StateMapUpTo(states, n).Keys == set i | 0 <= i < n :: Key(states[i].ref)
  {
    if n > 0 {
      StateMapKeys(states, n - 1);
    }
  }

  /** A key maps to the last state of the batch with that key. */
  lemma {:induction false} StateMapLast(states: seq<ConsumerState>, n: nat, i: nat)
    requires i < n <= |states|
    requires forall j :: i < j < n ==> Key(states[j].ref) != Key(states[i].ref)
    ensures Key(states[i].ref) in StateMapUpTo(states, n)
    ensures StateMapUpTo(states, n)[Key(states[i].ref)] == states[i]
  {
    if i < n - 1 {
      StateMapLast(states, n - 1, i);
    }
  }

  /** The view map after the first n views of SetupViews are registered over `base`. */
  function ViewMapOver(base: map<string, SelectableTextView?>, refs: seq<ConsumerRef>, views: seq<SelectableTextView?>, n: nat)
    : map<string, SelectableTextView?>
    requires n <= |refs| && n <= |views|
  {
    if n == 0 then base else ViewMapOver(base, refs, views, n - 1)[Key(refs[n - 1]) := views[n - 1]]
  }

  /** The grid items of the first n views. */
  function PlacedItems(views: seq<SelectableTextView?>, columns: int, n: nat): seq<GridItem>
    requires columns > 0 && n <= |views|
  {
    if n == 0 then []
    else PlacedItems(views, columns, n - 1) + [ViewItem(views[n - 1], GridCell(n - 1, columns).row, GridCell(n - 1, columns).col)]
  }

  /** updateViews' flash rule: a state flashes its view when it changed and has no error. */
  predicate ShouldFlash(s: ConsumerState) {
    s.changed && s.error.None?
  }

  /** The views updateViews asks to flash, in the order of the first n configured
      consumers; a consumer without a view or without a state is skipped. */
  function FlashTargets(refs: seq<ConsumerRef>, viewMap: map<string, SelectableTextView?>, stateMap: map<string, ConsumerState>, n: nat)
    : seq<SelectableTextView>
    requires n <= |refs|
  {
    if n == 0 then []
    else
      var key := Key(refs[n - 1]);
      FlashTargets(refs, viewMap, stateMap, n - 1)
      + (if key in viewMap && viewMap[key] != null && key in stateMap && ShouldFlash(stateMap[key]) then [viewMap[key]] else [])
  }

  /** A view is asked to flash exactly when some configured consumer has that view
      and a state that changed without error. */
  lemma {:induction false} FlashTargetsMembers(refs: seq<ConsumerRef>, viewMap: map<string, SelectableTextView?>, stateMap: map<string, ConsumerState>, n: nat)
    requires n <= |refs|
    ensures forall v :: v in FlashTargets(refs, viewMap, stateMap, n) <==>
      exists i :: 0 <= i < n && Key(refs[i]) in viewMap && viewMap[Key(refs[i])] == v
        && Key(refs[i]) in stateMap && ShouldFlash(stateMap[Key(refs[i])])
  {
    if n > 0 {
      FlashTargetsMembers(refs, viewMap, stateMap, n - 1);
    }
  }

  /** The flash controller's state together with the paints issued so far. */
  datatype FlashState = FlashState(flashing: map<SelectableTextView, Color>, painted: seq<Paint>)

  /** One Flash call on the plan's state. */
  function FlashStep(s: FlashState, v: SelectableTextView, base: Color, flash: Color): FlashState {
    if v in s.flashing then s
    else FlashState(s.flashing[v := base], s.painted + [Paint(v, flash)])
  }

  /** updateViews' loop after the first n configured consumers. */
  function FlashOver(st: FlashState, refs: seq<ConsumerRef>, viewMap: map<string, SelectableTextView?>,
                     stateMap: map<string, ConsumerState>, n: nat, base: Color, flash: Color): FlashState
    requires n <= |refs|
  {
    if n == 0 then st
    else
      var s := FlashOver(st, refs, viewMap, stateMap, n - 1, base, flash);
      var key := Key(refs[n - 1]);
      if key in viewMap && viewMap[key] != null && key in stateMap && ShouldFlash(stateMap[key])
      then FlashStep(s, viewMap[key], base, flash)
      else s
  }

  lemma {:induction false} FlashCallIsStep(s: FlashState, r: FlashState, v: SelectableTextView, base: Color, flash: Color)
    requires v in s.flashing ==> r == s
    requires v !in s.flashing ==> r == FlashState(s.flashing[v := base], s.painted + [Paint(v, flash)])
    ensures r == FlashStep(s, v, base, flash)
  {
  }

  lemma {:induction false} FlashOverNext(st: FlashState, refs: seq<ConsumerRef>, viewMap: map<string, SelectableTextView?>,
                      stateMap: map<string, ConsumerState>, n: nat, base: Color, flash: Color)
    requires n < |refs|
    requires Key(refs[n]) in viewMap && viewMap[Key(refs[n])] != null
    requires Key(refs[n]) in stateMap && ShouldFlash(stateMap[Key(refs[n])])
    ensures FlashOver(st, refs, viewMap, stateMap, n + 1, base, flash)
      == FlashStep(FlashOver(st, refs, viewMap, stateMap, n, base, flash), viewMap[Key(refs[n])], base, flash)
  {
  }

  /** The loop amounts to flashing its targets in order. */
  lemma {:induction false} FlashOverTargets(st: FlashState, refs: seq<ConsumerRef>, viewMap: map<string, SelectableTextView?>,
                                            stateMap: map<string, ConsumerState>, n: nat, base: Color, flash: Color)
    requires n <= |refs|
    ensures FlashOver(st, refs, viewMap, stateMap, n, base, flash) == FlashAll(st, FlashTargets(refs, viewMap, stateMap, n), base, flash)
  {
    if n > 0 {
      FlashOverTargets(st, refs, viewMap, stateMap, n - 1, base, flash);
      var front := FlashTargets(refs, viewMap, stateMap, n - 1);
      var key := Key(refs[n - 1]);
      if key in viewMap && viewMap[key] != null && key in stateMap && ShouldFlash(stateMap[key]) {
        assert FlashTargets(refs, viewMap, stateMap, n) == front + [viewMap[key]];
        FlashAllStep(st, front, viewMap[key], base, flash);
      } else {
        assert FlashTargets(refs, viewMap, stateMap, n) == front;
      }
    }
  }

  /** Flash applied to each target in turn. */
  function FlashAll(st: FlashState, targets: seq<SelectableTextView>, base: Color, flash: Color): FlashState {
    if targets == [] then st
    else FlashStep(FlashAll(st, targets[..|targets| - 1], base, flash), targets[|targets| - 1], base, flash)
  }

  lemma {:induction false} FlashAllStep(st: FlashState, front: seq<SelectableTextView>, v: SelectableTextView, base: Color, flash: Color)
    ensures FlashAll(st, front + [v], base, flash) == FlashStep(FlashAll(st, front, base, flash), v, base, flash)
  {
    assert (front + [v])[..|front|] == front;
  }

  /** Flashing a list of views adds exactly those views to the flashing set. */
  lemma {:induction false} FlashAllFlashing(st: FlashState, targets: seq<SelectableTextView>, base: Color, flash: Color)
    ensures FlashAll(st, targets, base, flash).flashing.Keys == st.flashing.Keys + set v | v in targets
  {
    if targets != [] {
      var front, v := targets[..|targets| - 1], targets[|targets| - 1];
      assert targets == front + [v];
      FlashAllFlashing(st, front, base, flash);
      FlashAllStep(st, front, v, base, flash);
      assert (set w | w in targets) == (set w | w in front) + {v};
    }
  }

  /** A view that was flashing keeps the colour its pending clear restores; every
      view that starts flashing will be cleared back to `base`. */
  lemma {:induction false} FlashAllColours(st: FlashState, targets: seq<SelectableTextView>, base: Color, flash: Color, w: SelectableTextView)
    requires w in FlashAll(st, targets, base, flash).flashing
    ensures FlashAll(st, targets, base, flash).flashing[w] == if w in st.flashing then st.flashing[w] else base
  {
    if targets != [] {
      var front, v := targets[..|targets| - 1], targets[|targets| - 1];
      var s := FlashAll(st, front, base, flash);
      var r := FlashAll(st, targets, base, flash);
      assert r.flashing == if v in s.flashing then s.flashing else s.flashing[v := base];
      if w in s.flashing {
        FlashAllColours(st, front, base, flash, w);
      } else if w in st.flashing {
        FlashAllKeeps(st, front, base, flash, w);
      }
    }
  }

  /** A view that was flashing stays flashing with the same colour to restore. */
  lemma {:induction false} FlashAllKeeps(st: FlashState, targets: seq<SelectableTextView>, base: Color, flash: Color, w: SelectableTextView)
    requires w in st.flashing
    ensures w in FlashAll(st, targets, base, flash).flashing
    ensures FlashAll(st, targets, base, flash).flashing[w] == st.flashing[w]
  {
    if targets != [] {
      FlashAllKeeps(st, targets[..|targets| - 1], base, flash, w);
    }
  }

  /** The paints issued while flashing a list of views are appended after the earlier
      ones; each is in the flash colour, for a listed view that was not flashing
      before, and no view is painted twice. */
  lemma {:induction false} FlashAllPaints(st: FlashState, targets: seq<SelectableTextView>, base: Color, flash: Color)
    ensures var r := FlashAll(st, targets, base, flash);
      && |st.painted| <= |r.painted| && r.painted[..|st.painted|] == st.painted
      && (forall k :: |st.painted| <= k < |r.painted| ==>
            && r.painted[k].color == flash && r.painted[k].view in targets
            && r.painted[k].view !in st.flashing && r.painted[k].view in r.flashing)
      && (forall k, l :: |st.painted| <= k < l < |r.painted| ==> r.painted[k].view != r.painted[l].view)
  {
    if targets != [] {
      var front, v := targets[..|targets| - 1], targets[|targets| - 1];
      assert targets == front + [v];
      FlashAllPaints(st, front, base, flash);
      FlashAllStep(st, front, v, base, flash);
      var s := FlashAll(st, front, base, flash);
      var r := FlashAll(st, targets, base, flash);
      if v !in s.flashing {
        assert r.painted == s.painted + [Paint(v, flash)];
        assert r.painted[..|st.painted|] == s.painted[..|st.painted|];
        FlashAllFlashing(st, front, base, flash);
      }
    }
  }

  /** Every listed view that was not already flashing is painted in the flash colour. */
  lemma {:induction false} FlashAllPaintsEvery(st: FlashState, targets: seq<SelectableTextView>, base: Color, flash: Color, v: SelectableTextView)
    requires v in targets && v !in st.flashing
    ensures var r := FlashAll(st, targets, base, flash);
      exists k :: |st.painted| <= k < |r.painted| && r.painted[k] == Paint(v, flash)
  {
    var front, w := targets[..|targets| - 1], targets[|targets| - 1];
    assert targets == front + [w];
    FlashAllStep(st, front, w, base, flash);
    FlashAllPaints(st, front, base, flash);
    var s := FlashAll(st, front, base, flash);
    var r := FlashAll(st, targets, base, flash);
    if v in front {
      FlashAllPaintsEvery(st, front, base, flash, v);
      var k :| |st.painted| <= k < |s.painted| && s.painted[k] == Paint(v, flash);
      assert r.painted[k] == s.painted[k];
    } else {
      assert v == w;
      FlashAllFlashing(st, front, base, flash);
      assert v !in s.flashing;
      assert r.painted[|s.painted|] == Paint(v, flash);
    }
  }

  predicate HasResults(refs: seq<ConsumerRef>, measurements: map<string, Measurement>) {
    exists i :: 0 <= i < |refs| && Key(refs[i]) in measurements
  }

  function PrefixFor(name: string, currentIdx: int, totalPanels: int): Prefix {
    if totalPanels > 1 then PanelPrefix(name, currentIdx + 1, totalPanels) else NoPrefix
  }

  // ---------------------------------------------------------------------------
  // Window switching

  function NextIndex(i: int, n: int): int {
    if n <= 1 then i else if i + 1 >= n then 0 else i + 1
  }

  function PrevIndex(i: int, n: int): int {
    if n <= 1 then i else if i - 1 < 0 then n - 1 else i - 1
  }

  /** With several windows, next and previous move by one modulo the number of
      windows, stay in range and undo each other; with one or none they do nothing. */
  lemma {:induction false} WindowIndexLaws(i: int, n: int)
    requires 0 <= i < n || (n == 0 && i == 0)
    ensures n <= 1 ==> NextIndex(i, n) == i && PrevIndex(i, n) == i
    ensures n > 1 ==> NextIndex(i, n) == (i + 1) % n && PrevIndex(i, n) == (i - 1) % n
    ensures n > 0 ==> 0 <= NextIndex(i, n) < n && 0 <= PrevIndex(i, n) < n
    ensures PrevIndex(NextIndex(i, n), n) == i && NextIndex(PrevIndex(i, n), n) == i
  {
    if n > 1 {
      if i + 1 >= n {
        ModSelf(n);
      } else {
        ModSmall(i + 1, n);
      }
      if i == 0 {
        ModMinusOne(n);
      } else {
        ModSmall(i - 1, n);
      }
    }
  }

  lemma {:induction false} ModSmall(x: int, n: int)
    requires 0 <= x < n
    ensures x % n == x
  {
  }

  lemma {:induction false} ModSelf(n: int)
    requires n > 0
    ensures n % n == 0
  {
  }

  lemma {:induction false} ModMinusOne(n: int)
    requires n > 0
    ensures (-1) % n == n - 1
  {
  }

  // ---------------------------------------------------------------------------
  // Keyboard

  /** tcell's key codes, as far as the input capture distinguishes them. */
  datatype KeyCode = KeyCtrlC | KeyLeft | KeyRight | KeyRune | KeyOtherCode

  /** A key event: its key code and the rune it carries. */
  datatype KeyEvent = KeyEvent(key: KeyCode, rune: char)

  /** What the input capture does with a key: stop the application, one of the
      four window or throughput commands, or hand the key on to tview. */
  datatype Command = Quit | ToggleCmd | ClearCmd | PrevCmd | NextCmd | PassOn

  /** The runes the input capture handles itself. */
  const COMMAND_RUNES: string := "tTcCqQ<,>."

  /** The input capture's decision. Ctrl-C is looked at first, then the rune, then
      the arrow keys, so a rune command wins over the key code it comes with. */
  function KeyCommand(e: KeyEvent): (c: Command)
    ensures c == Quit <==> e.key == KeyCtrlC || e.rune in "qQ"
    ensures c == ToggleCmd <==> e.key != KeyCtrlC && e.rune in "tT"
    ensures c == ClearCmd <==> e.key != KeyCtrlC && e.rune in "cC"
    ensures c == PrevCmd <==> e.key != KeyCtrlC && (e.rune in "<," || (e.rune !in COMMAND_RUNES && e.key == KeyLeft))
    ensures c == NextCmd <==> e.key != KeyCtrlC && (e.rune in ">." || (e.rune !in COMMAND_RUNES && e.key == KeyRight))
    ensures c == PassOn <==> e.key != KeyCtrlC && e.key != KeyLeft && e.key != KeyRight && e.rune !in COMMAND_RUNES
  {
    if e.key == KeyCtrlC then Quit
    else if e.rune == 't' || e.rune == 'T' then ToggleCmd
    else if e.rune == 'c' || e.rune == 'C' then ClearCmd
    else if e.rune == 'q' || e.rune == 'Q' then Quit
    else if e.rune == '<' || e.rune == ',' then PrevCmd
    else if e.rune == '>' || e.rune == '.' then NextCmd
    else if e.key == KeyLeft then PrevCmd
    else if e.key == KeyRight then NextCmd
    else PassOn
  }

  // ---------------------------------------------------------------------------
  // Window panel

  /** Every view slot is filled. */
  predicate AllPresent(views: seq<SelectableTextView?>) {
    forall j :: 0 <= j < |views| ==> views[j] != null
  }

  /** What one batch does to a panel's tracker and status bar: the mode is kept, an
      open window takes the batch, and a closed one leaves the status bar showing
      "done" or the help text. */
  predicate BatchApplied(win: WindowConfig, states: seq<ConsumerState>, currentIdx: int, totalPanels: int,
                         measuring0: bool, measurements0: map<string, Measurement>, status0: StatusText,
                         measuring: bool, measurements: map<string, Measurement>, status: StatusText)
  {
    && measuring == measuring0
    && measurements == (if measuring then UpdatedUpTo(measurements0, states, |states|) else measurements0)
    && status == (if measuring then status0
                  else if HasResults(win.consumers, measurements) then Done(PrefixFor(win.name, currentIdx, totalPanels))
                  else Help(PrefixFor(win.name, currentIdx, totalPanels)))
  }

  class WindowPanel {
    const config: WindowConfig
    const rowSizes: array<int>
    const colSizes: array<int>
    /** The grid's items in the order they were added. */
    var items: seq<GridItem>
    const views: array<SelectableTextView?>
    var viewMap: map<string, SelectableTextView?>
    var status: StatusText
    const throughput: ThroughputTracker
    const flashC: FlashController

    /** One view slot per configured consumer. */
    ghost predicate Valid() {
      views.Length == |config.consumers|
    }

    /** newWindowPanel. */
    constructor (win: WindowConfig)
      ensures Valid()
      ensures config == win
      ensures rowSizes.Length == RowCount(|win.consumers|, EffectiveColumns(win.columns)) + 1
      ensures colSizes.Length == EffectiveColumns(win.columns)
      ensures rowSizes[rowSizes.Length - 1] == 1
      ensures forall i :: 0 <= i < rowSizes.Length - 1 ==> rowSizes[i] == 0
      ensures forall i :: 0 <= i < colSizes.Length ==> colSizes[i] == 0
      ensures items == [StatusItem(rowSizes.Length - 1, 0, 1, colSizes.Length)]
      ensures forall i :: 0 <= i < views.Length ==> views[i] == null
      ensures viewMap == map[] && status == Help(NoPrefix)
      ensures fresh(views) && fresh(throughput) && fresh(flashC) && fresh(rowSizes) && fresh(colSizes)
      ensures !throughput.measuring && throughput.measurements == map[]
      ensures flashC.flashing == map[]
    {
      var columns, rows, rs, cs := GridSizes(|win.consumers|, win.columns);
      config := win;
      rowSizes := rs;
      colSizes := cs;
      items := [StatusItem(rows, 0, 1, columns)];
      views := new SelectableTextView?[|win.consumers|](_ => null);
      viewMap := map[];
      status := Help(NoPrefix);
      throughput := new ThroughputTracker();
      flashC := new FlashController();
    }

    /** SetupViews: one bordered, titled, copyable view per configured consumer,
        registered under its key and placed in the grid. The stream-to-state map
        SetupViews builds is never read and is not modelled. */
    method SetupViews()
      requires Valid()
      modifies this`items, this`viewMap, views
      ensures Valid()
      ensures forall i :: 0 <= i < views.Length ==>
        views[i] != null && fresh(views[i])
        && views[i].fullTitle == config.consumers[i].consumer && views[i].canCopy
      ensures viewMap == ViewMapOver(old(viewMap), config.consumers, views[..], views.Length)
      ensures items == old(items) + PlacedItems(views[..], EffectiveColumns(config.columns), views.Length)
    {
      var columns := EffectiveColumns(config.columns);
      var i := 0;
      while i < |config.consumers|
        invariant 0 <= i <= views.Length
        invariant forall k :: 0 <= k < i ==>
          views[k] != null && fresh(views[k])
          && views[k].fullTitle == config.consumers[k].consumer && views[k].canCopy
        invariant viewMap == ViewMapOver(old(viewMap), config.consumers, views[..], i)
        invariant items == old(items) + PlacedItems(views[..], columns, i)
      {
        ghost var prev := views[..];
        AddView(i, columns);
        assert prev[..i] == views[..i];
        ViewMapFrame(old(viewMap), config.consumers, prev, views[..], i);
        PlacedItemsFrame(prev, views[..], columns, i);
        i := i + 1;
      }
      assert views[..i] == views[..];
    }

    /** One pass of SetupViews' loop: a new view for consumer i, stored in slot i,
        registered under the consumer's key and placed in its cell. */
    method AddView(i: int, columns: int)
      requires Valid() && 0 <= i < views.Length && columns > 0
      modifies this`items, this`viewMap, views
      ensures views[..] == old(views[..])[i := views[i]]
      ensures views[i] != null && fresh(views[i])
      ensures views[i].fullTitle == config.consumers[i].consumer && views[i].canCopy
      ensures viewMap == old(viewMap)[Key(config.consumers[i]) := views[i]]
      ensures items == old(items) + [ViewItem(views[i], GridCell(i, columns).row, GridCell(i, columns).col)]
    {
      var ref := config.consumers[i];
      var tv := new SelectableTextView();
      tv.SetFullTitle(ref.consumer);
      tv.SetTextCopiedFunc(true);
      views[i] := tv;
      viewMap := viewMap[Key(ref) := tv];
      var row := i / columns;
      var col := i % columns;
      items := items + [ViewItem(tv, row, col)];
    }

    /** The body of toggleThroughput's loop for this panel. */
    method ToggleMeasurement(states: seq<ConsumerState>, now: Instant)
      modifies throughput, this`status
      ensures throughput.measuring == !old(throughput.measuring)
      ensures throughput.measurements == Toggled(old(throughput.measuring), old(throughput.measurements), states, now)
      ensures status == (if throughput.measuring then MeasuringText else Done(NoPrefix))
    {
      var measuring := throughput.Toggle(states, now);
      if measuring {
        status := MeasuringText;
      } else {
        status := Done(NoPrefix);
      }
    }

    /** updateStatusBar: left alone while a window is open; otherwise "done" when
        some configured consumer has a measurement, else the help text, behind the
        window prefix when there are several windows. */
    method UpdateStatusBar(currentIdx: int, totalPanels: int)
      modifies this`status
      ensures throughput.measuring ==> status == old(status)
      ensures !throughput.measuring ==>
        status == (if HasResults(config.consumers, throughput.measurements)
                   then Done(PrefixFor(config.name, currentIdx, totalPanels))
                   else Help(PrefixFor(config.name, currentIdx, totalPanels)))
    {
      var measuring := throughput.IsMeasuring();
      if measuring {
        return;
      }
      ghost var measurements := throughput.measurements;
      var hasResults := false;
      var i := 0;
      while i < |config.consumers|
        invariant 0 <= i <= |config.consumers|
        invariant hasResults ==> HasResults(config.consumers, measurements)
        invariant !hasResults ==> forall k :: 0 <= k < i ==> Key(config.consumers[k]) !in measurements
      {
        var ref := config.consumers[i];
        var m := throughput.Get(ref.stream, ref.consumer);
        if m.Some? {
          hasResults := true;
          break;
        }
        i := i + 1;
      }
      var prefix := NoPrefix;
      if totalPanels > 1 {
        prefix := PanelPrefix(config.name, currentIdx + 1, totalPanels);
      }
      if hasResults {
        status := Done(prefix);
      } else {
        status := Help(prefix);
      }
    }

    /** updateViews: every configured consumer with a view and a state flashes its
        view when the state changed without error. Setting the view's text and
        background is rendering and is not modelled. */
    method UpdateViews(states: seq<ConsumerState>) returns (painted: seq<Paint>)
      modifies flashC
      ensures FlashState(flashC.flashing, painted)
        == FlashAll(FlashState(old(flashC.flashing), []),
                    FlashTargets(config.consumers, viewMap, StateMapUpTo(states, |states|), |config.consumers|),
                    BACKGROUND, FLASH)
    {
      var stateMap := map[];
      var j := 0;
      while j < |states|
        invariant 0 <= j <= |states|
        invariant stateMap == StateMapUpTo(states, j)
      {
        stateMap := stateMap[Key(states[j].ref) := states[j]];
        j := j + 1;
      }
      ghost var start := FlashState(flashC.flashing, []);
      painted := [];
      var i := 0;
      while i < |config.consumers|
        invariant 0 <= i <= |config.consumers|
        invariant FlashState(flashC.flashing, painted)
          == FlashOver(start, config.consumers, viewMap, stateMap, i, BACKGROUND, FLASH)
      {
        var key := Key(config.consumers[i]);
        if key !in viewMap || viewMap[key] == null {
          i := i + 1;
          continue;
        }
        var tv := viewMap[key];
        if key !in stateMap {
          i := i + 1;
          continue;
        }
        var state := stateMap[key];
        var shouldFlash := state.changed && state.error.None?;
        if shouldFlash {
          ghost var before := FlashState(flashC.flashing, painted);
          var p := flashC.Flash(tv, BACKGROUND, FLASH);
          painted := painted + p;
          FlashCallIsStep(before, FlashState(flashC.flashing, painted), tv, BACKGROUND, FLASH);
          FlashOverNext(start, config.consumers, viewMap, stateMap, i, BACKGROUND, FLASH);
        }
        i := i + 1;
      }
      FlashOverTargets(start, config.consumers, viewMap, stateMap, |config.consumers|, BACKGROUND, FLASH);
    }

    /** BatchApplied between the earlier state and now. */
    twostate predicate AppliedSince(states: seq<ConsumerState>, currentIdx: int, totalPanels: int)
      reads this, throughput
    {
      BatchApplied(config, states, currentIdx, totalPanels,
                   old(throughput.measuring), old(throughput.measurements), old(status),
                   throughput.measuring, throughput.measurements, status)
    }

    /** The tracker and the status bar are as they were. */
    twostate predicate Untouched()
      reads this, throughput
    {
      && throughput.measuring == old(throughput.measuring)
      && throughput.measurements == old(throughput.measurements)
      && status == old(status)
    }

    /** The body of handleUpdates' per-panel loop: the tracker takes the batch, the
        views flash, and the status bar is refreshed. */
    method ApplyBatch(states: seq<ConsumerState>, currentIdx: int, totalPanels: int) returns (painted: seq<Paint>)
      modifies throughput, flashC, this`status
      ensures AppliedSince(states, currentIdx, totalPanels)
      ensures FlashState(flashC.flashing, painted)
        == FlashAll(FlashState(old(flashC.flashing), []),
                    FlashTargets(config.consumers, viewMap, StateMapUpTo(states, |states|), |config.consumers|),
                    BACKGROUND, FLASH)
    {
      throughput.Update(states);
      painted := UpdateViews(states);
      UpdateStatusBar(currentIdx, totalPanels);
    }
  }

  lemma {:induction false} ViewMapFrame(base: map<string, SelectableTextView?>, refs: seq<ConsumerRef>, a: seq<SelectableTextView?>, b: seq<SelectableTextView?>, n: nat)
    requires n <= |refs| && n <= |a| && n <= |b| && a[..n] == b[..n]
    ensures ViewMapOver(base, refs, a, n) == ViewMapOver(base, refs, b, n)
  {
    if n > 0 {
      assert a[..n - 1] == b[..n - 1] by {
        assert a[..n - 1] == a[..n][..n - 1];
        assert b[..n - 1] == b[..n][..n - 1];
      }
      assert a[n - 1] == a[..n][n - 1] == b[..n][n - 1] == b[n - 1];
      ViewMapFrame(base, refs, a, b, n - 1);
    }
  }

  lemma {:induction false} PlacedItemsFrame(a: seq<SelectableTextView?>, b: seq<SelectableTextView?>, columns: int, n: nat)
    requires columns > 0 && n <= |a| && n <= |b| && a[..n] == b[..n]
    ensures PlacedItems(a, columns, n) == PlacedItems(b, columns, n)
  {
    if n > 0 {
      assert a[..n - 1] == b[..n - 1] by {
        assert a[..n - 1] == a[..n][..n - 1];
        assert b[..n - 1] == b[..n][..n - 1];
      }
      assert a[n - 1] == a[..n][n - 1] == b[..n][n - 1] == b[n - 1];
      PlacedItemsFrame(a, b, columns, n - 1);
    }
  }
  // ---------------------------------------------------------------------------
  // Application

  /** NewApp's loop: a fresh panel per window, each of its objects owned by its
      index. */
  method NewPanels(windows: seq<WindowConfig>) returns (ps: seq<WindowPanel>, ghost own: map<object, int>)
    ensures |ps| == |windows|
    ensures forall k :: 0 <= k < |ps| ==>
      && ps[k].Valid() && ps[k].config == windows[k] && ps[k].status == Help(NoPrefix) && ps[k].viewMap == map[]
      && !ps[k].throughput.measuring && ps[k].throughput.measurements == map[]
      && ps[k].flashC.flashing == map[]
    ensures forall k :: 0 <= k < |ps| ==>
      && ps[k] in own && own[ps[k]] == k
      && ps[k].throughput in own && own[ps[k].throughput] == k
      && ps[k].flashC in own && own[ps[k].flashC] == k
      && ps[k].views in own && own[ps[k].views] == k
  {
    ps, own := [], map[];
    var i := 0;
    while i < |windows|
      invariant 0 <= i <= |windows| && |ps| == i
      invariant forall k :: 0 <= k < i ==>
        && ps[k].Valid() && ps[k].config == windows[k] && ps[k].status == Help(NoPrefix) && ps[k].viewMap == map[]
        && !ps[k].throughput.measuring && ps[k].throughput.measurements == map[]
        && ps[k].flashC.flashing == map[]
      invariant forall k :: 0 <= k < i ==>
        && ps[k] in own && own[ps[k]] == k
        && ps[k].throughput in own && own[ps[k].throughput] == k
        && ps[k].flashC in own && own[ps[k].flashC] == k
        && ps[k].views in own && own[ps[k].views] == k
    {
      var panel := new WindowPanel(windows[i]);
      own := own[panel := i][panel.throughput := i][panel.flashC := i][panel.views := i];
      ps := ps + [panel];
      i := i + 1;
    }
  }

  class App {
    const panels: seq<WindowPanel>
    var currentIdx: int
    /** The index of the page tview shows. */
    var visiblePage: int
    /** The last batch received; None before the first. */
    var lastStates: Option<seq<ConsumerState>>
    /** handleUpdates' firstUpdate flag. */
    var firstUpdate: bool

    ghost const panelSet: set<WindowPanel>
    ghost const trackers: set<ThroughputTracker>
    ghost const flashers: set<FlashController>
    ghost const viewArrays: set<array<SelectableTextView?>>

    /** Every panel, tracker, flash controller and view slice is owned by the
        index of its panel, so no two panels share one. */
    ghost const owner: map<object, int>

    ghost predicate Owned(k: int)
      requires 0 <= k < |panels|
    {
      && panels[k] in owner && owner[panels[k]] == k
      && panels[k].throughput in owner && owner[panels[k].throughput] == k
      && panels[k].flashC in owner && owner[panels[k].flashC] == k
      && panels[k].views in owner && owner[panels[k].views] == k
      && panels[k] in panelSet && panels[k].throughput in trackers && panels[k].flashC in flashers && panels[k].views in viewArrays
    }

    /** The current index is in range, every panel is owned by its index and valid. */
    ghost predicate Valid()
      reads this
    {
      && 0 <= currentIdx && (currentIdx < |panels| || currentIdx == 0)
      && (forall i :: 0 <= i < |panels| ==> Owned(i) && panels[i].Valid())
    }

    /** Panels other than the k-th share none of its objects. */
    lemma {:induction false} Disjoint(k: int)
      requires Valid() && 0 <= k < |panels|
      ensures forall j :: 0 <= j < |panels| && j != k ==>
        && panels[j] != panels[k] && panels[j].throughput != panels[k].throughput
        && panels[j].flashC != panels[k].flashC && panels[j].views != panels[k].views
    {
      forall j | 0 <= j < |panels| && j != k
        ensures && panels[j] != panels[k] && panels[j].throughput != panels[k].throughput
                && panels[j].flashC != panels[k].flashC && panels[j].views != panels[k].views
      {
        assert Owned(j) && Owned(k);
      }
    }

    /** NewApp: one panel per window, the first one shown. */
    constructor (windows: seq<WindowConfig>)
      ensures Valid()
      ensures |panels| == |windows|
      ensures forall i :: 0 <= i < |panels| ==>
        && panels[i].config == windows[i] && panels[i].status == Help(NoPrefix) && panels[i].viewMap == map[]
        && !panels[i].throughput.measuring && panels[i].throughput.measurements == map[]
        && panels[i].flashC.flashing == map[]
      ensures currentIdx == 0 && visiblePage == 0 && lastStates == None && firstUpdate
      ensures panelSet == set p | p in panels
      ensures trackers == set i | 0 <= i < |panels| :: panels[i].throughput
      ensures flashers == set i | 0 <= i < |panels| :: panels[i].flashC
      ensures viewArrays == set i | 0 <= i < |panels| :: panels[i].views
    {
      var ps, own := NewPanels(windows);
      panels := ps;
      owner := own;
      panelSet := set p | p in ps;
      trackers := set k | 0 <= k < |ps| :: ps[k].throughput;
      flashers := set k | 0 <= k < |ps| :: ps[k].flashC;
      viewArrays := set k | 0 <= k < |ps| :: ps[k].views;
      new;
      forall k | 0 <= k < |panels|
        ensures Owned(k)
      {
        assert panels[k] in panelSet;
      }
      currentIdx := 0;
      visiblePage := 0;
      lastStates := None;
      firstUpdate := true;
    }

    /** updateWindowTitle: with several windows the current panel's status bar
        names its window and position. */
    method UpdateWindowTitle()
      requires Valid()
      modifies panelSet`status
      ensures Valid()
      ensures forall k :: 0 <= k < |panels| ==>
        panels[k].status == if |panels| > 1 && k == currentIdx
                            then WindowTitle(panels[k].config.name, k + 1, |panels|)
                            else old(panels[k].status)
    {
      if |panels| <= 1 {
        return;
      }
      var panel := panels[currentIdx];
      panel.status := WindowTitle(panel.config.name, currentIdx + 1, |panels|);
    }

    /** prevWindow. */
    method PrevWindow()
      requires Valid()
      modifies this`currentIdx, this`visiblePage, panelSet`status
      ensures Valid()
      ensures currentIdx == PrevIndex(old(currentIdx), |panels|)
      ensures |panels| <= 1 ==> visiblePage == old(visiblePage)
      ensures |panels| > 1 ==> visiblePage == currentIdx
      ensures forall k :: 0 <= k < |panels| ==>
        panels[k].status == if |panels| > 1 && k == currentIdx
                            then WindowTitle(panels[k].config.name, k + 1, |panels|)
                            else old(panels[k].status)
    {
      if |panels| <= 1 {
        return;
      }
      currentIdx := currentIdx - 1;
      if currentIdx < 0 {
        currentIdx := |panels| - 1;
      }
      visiblePage := currentIdx;
      UpdateWindowTitle();
    }

    /** nextWindow. */
    method NextWindow()
      requires Valid()
      modifies this`currentIdx, this`visiblePage, panelSet`status
      ensures Valid()
      ensures currentIdx == NextIndex(old(currentIdx), |panels|)
      ensures |panels| <= 1 ==> visiblePage == old(visiblePage)
      ensures |panels| > 1 ==> visiblePage == currentIdx
      ensures forall k :: 0 <= k < |panels| ==>
        panels[k].status == if |panels| > 1 && k == currentIdx
                            then WindowTitle(panels[k].config.name, k + 1, |panels|)
                            else old(panels[k].status)
    {
      if |panels| <= 1 {
        return;
      }
      currentIdx := currentIdx + 1;
      if currentIdx >= |panels| {
        currentIdx := 0;
      }
      visiblePage := currentIdx;
      UpdateWindowTitle();
    }

    /** handleUpdates' first-batch step: every panel sets up its views, then the
        window title is shown. */
    method SetupPanels()
      requires Valid()
      modifies panelSet`items, panelSet`viewMap, panelSet`status, viewArrays
      ensures Valid()
      ensures forall k :: 0 <= k < |panels| ==> AllPresent(panels[k].views[..])
      ensures forall k :: 0 <= k < |panels| ==>
        panels[k].status == if |panels| > 1 && k == currentIdx
                            then WindowTitle(panels[k].config.name, k + 1, |panels|)
                            else old(panels[k].status)
    {
      var i := 0;
      while i < |panels|
        invariant 0 <= i <= |panels|
        invariant forall k :: 0 <= k < i ==> AllPresent(panels[k].views[..])
        invariant forall k :: 0 <= k < |panels| ==> panels[k].status == old(panels[k].status)
      {
        Disjoint(i);
        panels[i].SetupViews();
        i := i + 1;
      }
      UpdateWindowTitle();
    }

    /** handleUpdates' per-batch loop over the panels. */
    method ApplyToPanels(states: seq<ConsumerState>)
      requires Valid()
      modifies panelSet`status, trackers, flashers
      ensures Valid()
      ensures forall k :: 0 <= k < |panels| ==> panels[k].AppliedSince(states, currentIdx, |panels|)
    {
      var i := 0;
      while i < |panels|
        invariant 0 <= i <= |panels|
        invariant forall k :: 0 <= k < i ==> panels[k].AppliedSince(states, currentIdx, |panels|)
        invariant forall k :: i <= k < |panels| ==> panels[k].Untouched()
      {
        Disjoint(i);
        var _ := panels[i].ApplyBatch(states, currentIdx, |panels|);
        i := i + 1;
      }
    }

    /** One batch received by handleUpdates: the first batch sets the panels up;
        every batch becomes the last one and is applied to every panel. */
    method HandleBatch(states: seq<ConsumerState>)
      requires Valid()
      modifies this`lastStates, this`firstUpdate, panelSet`items, panelSet`viewMap, panelSet`status
      modifies viewArrays, trackers, flashers
      ensures Valid()
      ensures lastStates == Some(states) && !firstUpdate
      ensures old(firstUpdate) ==> forall k :: 0 <= k < |panels| ==> AllPresent(panels[k].views[..])
      ensures !old(firstUpdate) ==> forall k :: 0 <= k < |panels| ==> panels[k].AppliedSince(states, currentIdx, |panels|)
    {
      if firstUpdate {
        SetupPanels();
        firstUpdate := false;
      }
      lastStates := Some(states);
      ApplyToPanels(states);
    }

    /** toggleThroughput: nothing before the first batch; afterwards every panel's
        tracker toggles on the last batch, at the instant its own clock reading
        gives, and its status bar says whether it is now measuring. */
    method ToggleThroughput(clock: seq<Instant>)
      requires Valid() && |clock| == |panels|
      modifies trackers, panelSet`status
      ensures Valid()
      ensures lastStates.None? ==> forall k :: 0 <= k < |panels| ==>
        && panels[k].status == old(panels[k].status)
        && panels[k].throughput.measuring == old(panels[k].throughput.measuring)
        && panels[k].throughput.measurements == old(panels[k].throughput.measurements)
      ensures lastStates.Some? ==> forall k :: 0 <= k < |panels| ==>
        && panels[k].throughput.measuring == !old(panels[k].throughput.measuring)
        && panels[k].throughput.measurements
           == Toggled(old(panels[k].throughput.measuring), old(panels[k].throughput.measurements), lastStates.value, clock[k])
        && panels[k].status == (if panels[k].throughput.measuring then MeasuringText else Done(NoPrefix))
    {
      if lastStates.None? {
        return;
      }
      var i := 0;
      while i < |panels|
        invariant 0 <= i <= |panels|
        invariant forall k :: 0 <= k < i ==>
          && panels[k].throughput.measuring == !old(panels[k].throughput.measuring)
          && panels[k].throughput.measurements
             == Toggled(old(panels[k].throughput.measuring), old(panels[k].throughput.measurements), lastStates.value, clock[k])
          && panels[k].status == (if panels[k].throughput.measuring then MeasuringText else Done(NoPrefix))
        invariant forall k :: i <= k < |panels| ==>
          && panels[k].throughput.measuring == old(panels[k].throughput.measuring)
          && panels[k].throughput.measurements == old(panels[k].throughput.measurements)
      {
        Disjoint(i);
        panels[i].ToggleMeasurement(lastStates.value, clock[i]);
        i := i + 1;
      }
    }

    /** clearThroughput: every tracker is emptied and every status bar shows the help
        text, whether or not a batch has arrived. */
    method ClearThroughput()
      requires Valid()
      modifies trackers, panelSet`status
      ensures Valid()
      ensures forall k :: 0 <= k < |panels| ==>
        && !panels[k].throughput.measuring && panels[k].throughput.measurements == map[]
        && panels[k].status == Help(NoPrefix)
    {
      var i := 0;
      while i < |panels|
        invariant 0 <= i <= |panels|
        invariant forall k :: 0 <= k < i ==>
          && !panels[k].throughput.measuring && panels[k].throughput.measurements == map[]
          && panels[k].status == Help(NoPrefix)
      {
        Disjoint(i);
        var panel := panels[i];
        panel.throughput.Clear();
        panel.status := Help(NoPrefix);
        i := i + 1;
      }
    }

    /** The input capture: the command a key selects is carried out; `passed` says the
        key goes on to tview and `stop` that the application stops. */
    method HandleKey(e: KeyEvent, clock: seq<Instant>) returns (passed: bool, stop: bool)
      requires Valid() && |clock| == |panels|
      modifies this`currentIdx, this`visiblePage, panelSet`status, trackers
      ensures Valid()
      ensures passed <==> KeyCommand(e) == PassOn
      ensures stop <==> KeyCommand(e) == Quit
      ensures currentIdx == match KeyCommand(e)
                            case PrevCmd => PrevIndex(old(currentIdx), |panels|)
                            case NextCmd => NextIndex(old(currentIdx), |panels|)
                            case _ => old(currentIdx)
      ensures KeyCommand(e) == Quit || KeyCommand(e) == PassOn ==> forall k :: 0 <= k < |panels| ==>
        && panels[k].status == old(panels[k].status)
        && panels[k].throughput.measuring == old(panels[k].throughput.measuring)
        && panels[k].throughput.measurements == old(panels[k].throughput.measurements)
      ensures KeyCommand(e) == ClearCmd ==> forall k :: 0 <= k < |panels| ==>
        && !panels[k].throughput.measuring && panels[k].throughput.measurements == map[]
        && panels[k].status == Help(NoPrefix)
      ensures visiblePage == if (KeyCommand(e) == PrevCmd || KeyCommand(e) == NextCmd) && |panels| > 1
                             then currentIdx else old(visiblePage)
      ensures KeyCommand(e) == ToggleCmd && lastStates.None? ==> forall k :: 0 <= k < |panels| ==>
        && panels[k].status == old(panels[k].status)
        && panels[k].throughput.measuring == old(panels[k].throughput.measuring)
        && panels[k].throughput.measurements == old(panels[k].throughput.measurements)
      ensures KeyCommand(e) == ToggleCmd && lastStates.Some? ==> forall k :: 0 <= k < |panels| ==>
        && panels[k].throughput.measuring == !old(panels[k].throughput.measuring)
        && panels[k].throughput.measurements
           == Toggled(old(panels[k].throughput.measuring), old(panels[k].throughput.measurements), lastStates.value, clock[k])
        && panels[k].status == (if panels[k].throughput.measuring then MeasuringText else Done(NoPrefix))
      ensures KeyCommand(e) == PrevCmd || KeyCommand(e) == NextCmd ==> forall k :: 0 <= k < |panels| ==>
        && panels[k].throughput.measuring == old(panels[k].throughput.measuring)
        && panels[k].throughput.measurements == old(panels[k].throughput.measurements)
        && panels[k].status == if |panels| > 1 && k == currentIdx
                               then WindowTitle(panels[k].config.name, k + 1, |panels|)
                               else old(panels[k].status)
    {
      passed, stop := false, false;
      match KeyCommand(e)
      case Quit => stop := true;
      case ToggleCmd => ToggleThroughput(clock);
      case ClearCmd => ClearThroughput();
      case PrevCmd => PrevWindow();
      case NextCmd => NextWindow();
      case PassOn => passed := true;
    }
  }

}
