/**
 * The `ResizableGrid` view of src/view.rs: the grid on screen, a pause
 * flag, and how the view reacts to layout passes and to input events.
 *
 * The view's state is a `Grid` value and a `bool`, updated in place by
 * `Layout`, `OnEvent` and `Reset`. The functions `AfterLayout` and
 * `AfterEvent` give the state those methods leave behind, and the lemmas
 * at the end of the module state what the view promises about them.
 */
module View {
  import opened Wrappers
  import opened Life

  /** `cursive::vec::Vec2`: a pair of screen coordinates. */
  datatype Vec2 = Vec2(x: nat, y: nat)

  datatype MouseButton = Left | Middle | Right | Button4 | Button5 | OtherButton

  datatype MouseEvent =
    | Press(button: MouseButton)
    | Release(button: MouseButton)
    | Hold(button: MouseButton)
    | WheelUp
    | WheelDown

  /**
   * The input events a cursive view receives. `Refresh`, `Char` and
   * `Mouse` are the ones the view looks at; the others stand for the rest
   * of cursive's event variants, which it ignores.
   */
  datatype Event =
    | Refresh
    | Char(ch: char)
    | Mouse(offset: Vec2, position: Vec2, event: MouseEvent)
    | CtrlChar(ch: char)
    | AltChar(ch: char)
    | Key(code: nat)
    | WindowResize
    | Unknown(bytes: seq<nat>)

  /** The callbacks the view hands back to cursive: only the one that opens the reset dialog. */
  datatype Callback = ShowResetDialog

  datatype EventResult = Ignored | Consumed(callback: Option<Callback>)

  /** The view's whole state: the grid and whether the simulation is paused. */
  datatype Screen = Screen(grid: Grid, pause: bool)

  /**
   * The grid with the cell at `(x, y)` toggled, as the mouse arm of
   * `on_event` does through `get_mut`; a position off the grid leaves it
   * as it is.
   */
  function ToggledAt(g: Grid, x: nat, y: nat): (t: Grid)
    ensures SameShape(t, g)
    ensures forall a, b :: InBounds(g, a, b) ==>
      t.rows[a][b] == if a == x && b == y then Toggle(g.rows[a][b]) else g.rows[a][b]
  {
    if InBounds(g, x, y) then Grid(g.rows[x := g.rows[x][y := Toggle(g.rows[x][y])]]) else g
  }

  /** The state `on_event` leaves behind, and what it returns. */
  function AfterEvent(s: Screen, evt: Event): (r: (Screen, EventResult))
    ensures Rectangular(s.grid) ==> Rectangular(r.0.grid)
    ensures r.1 == Ignored ==> r.0 == s
  {
    match evt
    case Refresh => (s.(grid := Tick(s.grid)), Consumed(None))
    case Char(' ') => (s.(pause := !s.pause), Consumed(None))
    case Char('r') => (s, Consumed(Some(ShowResetDialog)))
    case Mouse(_, p, Press(_)) => (s.(grid := ToggledAt(s.grid, p.x, p.y)), Consumed(None))
    case Mouse(_, _, _) => (s, Consumed(None))
    case _ => (s, Ignored)
  }

  /**
   * The state `layout` leaves behind: the same size ticks the grid unless
   * paused; any other size replaces the grid with a fresh random one of
   * that size, its draws given by `coin`.
   */
  function AfterLayout(s: Screen, size: Vec2, coin: (nat, nat) -> bool): (r: Screen)
    ensures r.pause == s.pause
    ensures Rectangular(s.grid) ==> Rectangular(r.grid)
    ensures Size(s.grid) != (size.x, size.y) ==> HasShape(r.grid, size.x, size.y)
  {
    if Size(s.grid) == (size.x, size.y) then
      if s.pause then s else s.(grid := Tick(s.grid))
    else
      s.(grid := Random(size.x, size.y, coin))
  }

  /** How a cell is drawn: `*` when alive, `.` when dead. */
  function Render(c: Cell): (s: string)
    ensures s == "*" <==> c == Alive
    ensures s in {"*", "."}
  {
    match c
    case Alive => "*"
    case Dead => "."
  }

  class ResizableGrid {
    var grid: Grid
    var pause: bool

    /** The grid is never ragged: every way the view gets a grid gives it rows of one length. */
    ghost predicate Valid()
      reads this
    {
      Rectangular(grid)
    }

    function State(): Screen
      reads this
    {
      Screen(grid, pause)
    }

    /** `Default::default`: no rows at all, and paused. */
    constructor Default()
      ensures Valid()
      ensures grid == Grid([]) && pause
    {
      grid := Grid([]);
      pause := true;
    }

    /** `as_rows`: one string per cell, `*` for a live cell and `.` for a dead one. */
    function AsRows(): (rows: seq<seq<string>>)
      reads this
      ensures |rows| == |grid.rows|
      ensures forall x :: 0 <= x < |rows| ==> |rows[x]| == |grid.rows[x]|
      ensures forall x, y :: InBounds(grid, x, y) ==>
        (rows[x][y] == "*" <==> grid.rows[x][y] == Alive) && rows[x][y] in {"*", "."}
    {
      var cells := grid.rows;
      seq(|cells|, x requires 0 <= x < |cells| =>
        seq(|cells[x]|, y requires 0 <= y < |cells[x]| => Render(cells[x][y])))
    }

    /** `reset`: a fresh random grid of the size the view already has. */
    method Reset(coin: (nat, nat) -> bool)
      modifies this
      ensures grid == Random(old(Size(grid)).0, old(Size(grid)).1, coin)
      ensures pause == old(pause)
      ensures Valid() && Size(grid) == old(Size(grid))
    {
      var (x, y) := Size(grid);
      grid := Random(x, y, coin);
      RandomSize(x, y, coin);
    }

    /** `layout`: tick on an unchanged size unless paused, re-seed on a new size. */
    method Layout(size: Vec2, coin: (nat, nat) -> bool)
      modifies this
      ensures State() == AfterLayout(old(State()), size, coin)
      ensures old(Valid()) ==> Valid()
    {
      if Size(grid) == (size.x, size.y) {
        if !pause {
          grid := Tick(grid);
        }
      } else {
        grid := Random(size.x, size.y, coin);
      }
    }

    /**
     * `on_event`: `Refresh` ticks, a space toggles the pause, `r` asks for
     * the reset dialog, a mouse press toggles the cell under it; every
     * other event is ignored.
     */
    method OnEvent(evt: Event) returns (res: EventResult)
      modifies this
      ensures (State(), res) == AfterEvent(old(State()), evt)
      ensures old(Valid()) ==> Valid()
    {
      match evt {
        case Refresh =>
          grid := Tick(grid);
        case Char(' ') =>
          pause := !pause;
        case Char('r') =>
          return Consumed(Some(ShowResetDialog));
        case Mouse(_, p, e) =>
          if e.Press? {
            var row := Get(grid.rows, p.x);
            if row.Some? {
              var cell := Get(row.value, p.y);
              if cell.Some? {
                grid := Grid(grid.rows[p.x := row.value[p.y := Toggle(cell.value)]]);
              }
            }
          }
        case _ =>
          return Ignored;
      }
      res := Consumed(None);
    }
  }

  /** Drawing a grid and reading it back the way the unit tests do gives the grid again. */
  lemma {:induction false} AsRowsRoundTrip(v: ResizableGrid)
    ensures ParseRows(v.AsRows()) == v.grid
  {
    var rows, g := v.AsRows(), v.grid;
    var p := ParseRows(rows);
    forall x | 0 <= x < |g.rows|
      ensures p.rows[x] == g.rows[x]
    {
      forall y | 0 <= y < |g.rows[x]|
        ensures p.rows[x][y] == g.rows[x][y]
      {
      }
    }
  }

  /** Two presses at the same position give back the grid. */
  lemma {:induction false} ToggleTwice(g: Grid, x: nat, y: nat)
    ensures ToggledAt(ToggledAt(g, x, y), x, y) == g
  {
    var t := ToggledAt(ToggledAt(g, x, y), x, y);
    if InBounds(g, x, y) {
      assert t.rows[x] == g.rows[x];
      assert t.rows == g.rows;
    }
  }

  /** `Refresh` ticks the grid whether or not the view is paused, and keeps the pause flag. */
  lemma RefreshIgnoresPause(g: Grid, pause: bool)
    ensures AfterEvent(Screen(g, pause), Refresh) == (Screen(Tick(g), pause), Consumed(None))
  {
  }

  /** A space flips the pause flag and nothing else; a second space flips it back. */
  lemma SpaceTogglesPause(s: Screen)
    ensures AfterEvent(s, Char(' ')) == (Screen(s.grid, !s.pause), Consumed(None))
    ensures AfterEvent(AfterEvent(s, Char(' ')).0, Char(' ')).0 == s
  {
  }

  /**
   * A mouse press toggles exactly the cell under it when that cell is on
   * the grid and changes nothing otherwise; the pause flag is untouched,
   * and two presses at one position give back the state.
   */
  lemma PressTogglesCell(s: Screen, offset: Vec2, p: Vec2, button: MouseButton)
    ensures var r := AfterEvent(s, Mouse(offset, p, Press(button)));
      && r.1 == Consumed(None)
      && r.0.pause == s.pause
      && SameShape(r.0.grid, s.grid)
      && (InBounds(s.grid, p.x, p.y) ==>
            r.0.grid.rows[p.x][p.y] != s.grid.rows[p.x][p.y] &&
            forall a, b :: InBounds(s.grid, a, b) && (a, b) != (p.x, p.y) ==> r.0.grid.rows[a][b] == s.grid.rows[a][b])
      && (!InBounds(s.grid, p.x, p.y) ==> r.0 == s)
      && AfterEvent(r.0, Mouse(offset, p, Press(button))).0 == s
  {
    ToggleTwice(s.grid, p.x, p.y);
  }

  /**
   * A mouse event other than a press (a release, a hold or the wheel) is
   * consumed and changes nothing.
   */
  lemma MouseNonPressIsNoop(s: Screen, offset: Vec2, p: Vec2, e: MouseEvent)
    requires !e.Press?
    ensures AfterEvent(s, Mouse(offset, p, e)) == (s, Consumed(None))
  {
  }

  /**
   * The view ignores an event exactly when it is not a refresh, a space,
   * an `r` or a mouse event; an ignored event changes nothing.
   */
  lemma IgnoredEvents(s: Screen, evt: Event)
    ensures AfterEvent(s, evt).1 == Ignored <==>
      !(evt.Refresh? || evt == Char(' ') || evt == Char('r') || evt.Mouse?)
    ensures AfterEvent(s, evt).1 == Ignored ==> AfterEvent(s, evt).0 == s
  {
  }

  /** Only `r` hands back a callback, the one that opens the reset dialog, and it changes no state. */
  lemma ResetKeyOpensDialog(s: Screen, evt: Event)
    ensures AfterEvent(s, evt).1 == Consumed(Some(ShowResetDialog)) <==> evt == Char('r')
    ensures evt == Char('r') ==> AfterEvent(s, evt).0 == s
  {
  }

  /**
   * A layout at the size the grid already has keeps the pause flag and
   * ticks the grid only when not paused.
   */
  lemma LayoutSameSize(s: Screen, size: Vec2, coin: (nat, nat) -> bool)
    requires Size(s.grid) == (size.x, size.y)
    ensures AfterLayout(s, size, coin) == Screen(if s.pause then s.grid else Tick(s.grid), s.pause)
  {
  }

  /**
   * After a layout at a new size with at least one row, a second layout
   * at that size does not re-seed: a paused view keeps its grid and a
   * running one ticks it.
   */
  lemma LayoutSettles(s: Screen, size: Vec2, c1: (nat, nat) -> bool, c2: (nat, nat) -> bool)
    requires size.x > 0
    ensures var first := AfterLayout(s, size, c1);
      AfterLayout(first, size, c2) == Screen(if s.pause then first.grid else Tick(first.grid), s.pause)
  {
  }

  /**
   * A layout at a size with no rows but some columns never matches the
   * `(0, 0)` size of the empty grid it produces, so every such layout
   * re-seeds (with another empty grid).
   */
  lemma NoRowsAlwaysReseeds(s: Screen, size: Vec2, coin: (nat, nat) -> bool)
    requires size.x == 0 && size.y > 0
    ensures AfterLayout(s, size, coin).grid == Grid([])
    ensures Size(AfterLayout(s, size, coin).grid) != (size.x, size.y)
  {
  }
}
