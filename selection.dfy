/** The selection engine as a reducer over values: the component's state
    after React has applied a handler's updates and re-run the effects they
    trigger (the row effect and the highlight effect), one function per
    action. The one exception is rotation: `Rotated` is the corrected
    handler, used by every other action and by the `Engine` class, and
    `RotatedAsWritten` is `handleRotation` as the component writes it. */
module Selection {
  import opened Wrappers
  import opened Catalog
  import opened Rotation
  import opened Cursor
  import opened Buffer
  import opened RateLimit

  /** `DEBOUNCE_TIME`, in ms */
  const DEBOUNCE_TIME: int := 200

  /** `handleDPadNavigation`'s two directions. */
  datatype Direction = Left | Right

  /** Row navigation: ArrowUp goes to the previous row, ArrowDown to the next. */
  datatype RowDirection = Previous | Next

  /** The action vocabulary both input sources emit. */
  datatype Action =
    | Rotate(vertical: int, horizontal: int)
    | MoveRow(row: RowDirection)
    | MoveChar(dir: Direction)
    | Commit
    | Delete
    | Clear

  /** The component's state hooks (the controller-connected flag aside) and
      the debounce ref, the latter as the time the gate last fired. */
  datatype State = State(
    text: string,
    vertical: int,
    horizontal: int,
    sector: Option<string>,
    highlight: Option<char>,
    rowIndex: int,
    charIndex: int,
    lastCommit: Option<int>)

  /** What holds of every settled state: the angles are in range, the row
      index names a catalog row, the selected sector is a catalog row that
      the character index points into, and the highlight is the character
      under the cursor (none when no sector is selected). */
  predicate Inv(s: State)
  {
    && -TILT_LIMIT <= s.vertical <= TILT_LIMIT
    && 0 <= s.horizontal < FULL_TURN
    && 0 <= s.rowIndex < ROW_COUNT
    && (s.sector.Some? ==>
          s.sector.value in Sectors && 0 <= s.charIndex < |s.sector.value|
          && s.highlight == Some(s.sector.value[s.charIndex]))
    && (s.sector.None? ==> s.charIndex == 0 && s.highlight.None?)
  }

  /** The state after mounting: the state hooks' initial values, then the row
      effect selects row 0 and the highlight effect highlights its first
      character. */
  function Initial(): (s: State)
    ensures Inv(s)
    ensures s.text == [] && s.rowIndex == 0 && s.sector == Some("ABCDE") && s.highlight == Some('A')
    ensures s.vertical == 0 && s.horizontal == 0 && s.charIndex == 0 && s.lastCommit.None?
  {
    CatalogShape();
    State([], 0, 0, Some(Sectors[0]), Some(Sectors[0][0]), 0, 0, None)
  }

  /** `handleRotation`, deriving the sector from the angle it has just set:
      the angles are clamped and wrapped, the sector becomes the one the new
      horizontal angle points at, the cursor returns to its first character
      and the highlight follows. Text, row index and gate are untouched. */
  function Rotated(s: State, dv: int, dh: int): (r: State)
    requires Inv(s)
    ensures Inv(r)
    ensures r.vertical == Tilt(s.vertical, dv) && r.horizontal == Wrap(s.horizontal, dh)
    ensures r.sector == Some(Sectors[SectorOf(r.horizontal)]) && r.charIndex == 0
    ensures r.highlight == Some(Sectors[SectorOf(r.horizontal)][0])
    ensures r.text == s.text && r.rowIndex == s.rowIndex && r.lastCommit == s.lastCommit
  {
    CatalogShape();
    var h := Wrap(s.horizontal, dh);
    var row := Sectors[SectorOf(h)];
    s.(vertical := Tilt(s.vertical, dv), horizontal := h,
       sector := Some(row), charIndex := 0, highlight := Some(row[0]))
  }

  /** `handleRotation` as the component writes it: the horizontal update may
      leave [0, 360), and the sector is derived from the horizontal angle of
      the render the callback was created in, the one before this update.
      An index outside the catalog selects `undefined`, which the highlight
      effect skips, so the old highlight stays. */
  function RotatedAsWritten(s: State, dv: int, dh: int): (r: State)
    ensures r.vertical == Tilt(s.vertical, dv) && r.horizontal == WrapAsWritten(s.horizontal, dh)
    ensures r.charIndex == 0 && r.text == s.text && r.rowIndex == s.rowIndex && r.lastCommit == s.lastCommit
    ensures 0 <= SectorOf(s.horizontal) < ROW_COUNT ==>
      && r.sector == Some(Sectors[SectorOf(s.horizontal)])
      && r.highlight == Some(Sectors[SectorOf(s.horizontal)][0])
    ensures !(0 <= SectorOf(s.horizontal) < ROW_COUNT) ==>
      r.sector.None? && r.highlight == s.highlight
  {
    CatalogShape();
    var i := SectorOf(s.horizontal);
    var moved := s.(vertical := Tilt(s.vertical, dv), horizontal := WrapAsWritten(s.horizontal, dh), charIndex := 0);
    if 0 <= i < ROW_COUNT then
      moved.(sector := Some(Sectors[i]), highlight := Some(Sectors[i][0]))
    else
      moved.(sector := None)
  }

  /** ArrowUp / ArrowDown: the row index steps back or forward round the
      catalog; the row effect selects that row and resets the cursor, and the
      highlight effect highlights the row's first character. */
  function RowMoved(s: State, d: RowDirection): (r: State)
    requires Inv(s)
    ensures Inv(r)
    ensures r.rowIndex == (if d == Previous then StepBack(s.rowIndex, ROW_COUNT) else StepForward(s.rowIndex, ROW_COUNT))
    ensures r.sector == Some(Sectors[r.rowIndex]) && r.charIndex == 0
    ensures r.highlight == Some(Sectors[r.rowIndex][0])
    ensures r.text == s.text && r.vertical == s.vertical && r.horizontal == s.horizontal
    ensures r.lastCommit == s.lastCommit
  {
    CatalogShape();
    var i := if d == Previous then StepBack(s.rowIndex, ROW_COUNT) else StepForward(s.rowIndex, ROW_COUNT);
    s.(rowIndex := i, sector := Some(Sectors[i]), charIndex := 0, highlight := Some(Sectors[i][0]))
  }

  /** `handleDPadNavigation` once the highlight effect has run: with a sector
      selected the character index steps round it and the highlight is the
      character at the new index; with none selected nothing changes. */
  function CharMoved(s: State, d: Direction): (r: State)
    requires Inv(s)
    ensures Inv(r)
    ensures s.sector.None? ==> r == s
    ensures s.sector.Some? ==>
      && r.charIndex == (if d == Left then StepBack(s.charIndex, |s.sector.value|)
                         else StepForward(s.charIndex, |s.sector.value|))
      && r.highlight == Some(s.sector.value[r.charIndex])
    ensures r.sector == s.sector && r.text == s.text && r.rowIndex == s.rowIndex
    ensures r.vertical == s.vertical && r.horizontal == s.horizontal && r.lastCommit == s.lastCommit
  {
    match s.sector
    case None => s
    case Some(row) =>
      var n := |row|;
      var j := if d == Left then StepBack(s.charIndex, n) else StepForward(s.charIndex, n);
      s.(charIndex := j, highlight := Some(row[j]))
  }

  /** `handleCharacterSelection`: with a highlighted character, exactly that
      character is appended to the text, the sector and highlight are cleared
      and the cursor reset; with none, nothing changes. */
  function Committed(s: State): (r: State)
    requires Inv(s)
    ensures Inv(r)
    ensures s.highlight.None? ==> r == s
    ensures s.highlight.Some? ==>
      && r.text == s.text + [s.highlight.value]
      && r.sector.None? && r.highlight.None? && r.charIndex == 0
    ensures r.vertical == s.vertical && r.horizontal == s.horizontal
    ensures r.rowIndex == s.rowIndex && r.lastCommit == s.lastCommit
  {
    match s.highlight
    case None => s
    case Some(c) => s.(text := s.text + [c], sector := None, highlight := None, charIndex := 0)
  }

  /** Enter or the primary button: when the shared debounce gate is open it
      closes at `now` and the selection is committed; otherwise the trigger
      is ignored. */
  function GatedCommit(s: State, now: int): (r: State)
    requires Inv(s)
    ensures Inv(r)
    ensures GateOpen(s.lastCommit, now, DEBOUNCE_TIME) ==>
      r == Committed(s).(lastCommit := Some(now))
    ensures !GateOpen(s.lastCommit, now, DEBOUNCE_TIME) ==> r == s
  {
    if GateOpen(s.lastCommit, now, DEBOUNCE_TIME) then
      Committed(s.(lastCommit := Some(now)))
    else
      s
  }

  /** The secondary button, `text.slice(0, -1)`: only the text changes. */
  function Deleted(s: State): (r: State)
    requires Inv(s)
    ensures Inv(r)
    ensures r.text == DropLast(s.text) && r.(text := s.text) == s
  {
    s.(text := DropLast(s.text))
  }

  /** The tertiary button: the text is emptied and nothing else changes. */
  function Cleared(s: State): (r: State)
    requires Inv(s)
    ensures Inv(r)
    ensures r.text == [] && r.(text := s.text) == s
  {
    s.(text := [])
  }

  /** One action at time `now`, whichever source issued it. */
  function Apply(s: State, a: Action, now: int): (r: State)
    requires Inv(s)
    ensures Inv(r)
  {
    match a
    case Rotate(dv, dh) => Rotated(s, dv, dh)
    case MoveRow(d) => RowMoved(s, d)
    case MoveChar(d) => CharMoved(s, d)
    case Commit => GatedCommit(s, now)
    case Delete => Deleted(s)
    case Clear => Cleared(s)
  }

  /** A sequence of actions, all at time `now`, applied in order. */
  function RunAll(s: State, acts: seq<Action>, now: int): (r: State)
    requires Inv(s)
    ensures Inv(r)
    decreases |acts|
  {
    if acts == [] then s
    else Apply(RunAll(s, acts[..|acts| - 1], now), acts[|acts| - 1], now)
  }

  /** The stale sector at work: at 44 degrees (sector 0), one full left-stick
      turn of 5 degrees reaches 49 degrees, in sector 1, yet the written
      handler stays on sector 0; the intended handler selects sector 1. */
  lemma StaleSectorLags()
    ensures Rotated(Initial(), 0, 4400).horizontal == 4400
    ensures RotatedAsWritten(Rotated(Initial(), 0, 4400), 0, 500).horizontal == 4900
    ensures SectorOf(4400) == 0 && SectorOf(4900) == 1
    ensures RotatedAsWritten(Rotated(Initial(), 0, 4400), 0, 500).sector == Some(Sectors[0])
    ensures Rotated(Rotated(Initial(), 0, 4400), 0, 500).sector == Some(Sectors[1])
  {
  }

  /** Moving to the next row and back selects the row one started on. */
  lemma RowMovesAreInverse(s: State)
    requires Inv(s)
    ensures RowMoved(RowMoved(s, Next), Previous).rowIndex == s.rowIndex
    ensures RowMoved(RowMoved(s, Previous), Next).rowIndex == s.rowIndex
    ensures RowMoved(RowMoved(s, Next), Previous).sector == Some(Sectors[s.rowIndex])
  {
  }

  /** Once a commit trigger fires at t, every further trigger before
      t + DEBOUNCE_TIME, whichever source it comes from, changes nothing; the
      first at or after it fires again. */
  lemma DebounceWindow(s: State, t: int, u: int)
    requires Inv(s) && GateOpen(s.lastCommit, t, DEBOUNCE_TIME)
    ensures GatedCommit(s, t).lastCommit == Some(t)
    ensures u < t + DEBOUNCE_TIME ==> GatedCommit(GatedCommit(s, t), u) == GatedCommit(s, t)
    ensures u >= t + DEBOUNCE_TIME ==> GatedCommit(GatedCommit(s, t), u).lastCommit == Some(u)
  {
  }

  /** The actions that change the text. */
  predicate Edits(a: Action)
  {
    a.Commit? || a.Delete? || a.Clear?
  }

  /** Only commit, delete and clear change the text: a run of other actions
      leaves it as it was. */
  lemma {:induction false} TextOnlyEditedByEdits(s: State, acts: seq<Action>, now: int)
    requires Inv(s)
    requires forall i :: 0 <= i < |acts| ==> !Edits(acts[i])
    ensures RunAll(s, acts, now).text == s.text
    decreases |acts|
  {
    if acts != [] {
      var init := acts[..|acts| - 1];
      assert forall i :: 0 <= i < |init| ==> init[i] == acts[i];
      TextOnlyEditedByEdits(s, init, now);
    }
  }

  /** The handler `handleKeyDown` dispatches these keys; every other key
      is ignored. */
  function KeyActions(key: string): seq<Action>
  {
    if key == "ArrowUp" then [MoveRow(Previous)]
    else if key == "ArrowDown" then [MoveRow(Next)]
    else if key == "ArrowLeft" then [MoveChar(Left)]
    else if key == "ArrowRight" then [MoveChar(Right)]
    else if key == "Enter" then [Commit]
    else []
  }

  /** A stick's rotation deltas, already decoded from its axes (deadzone and
      gain applied), in hundredths of a degree. */
  datatype Delta = Delta(vertical: int, horizontal: int)

  /** One snapshot of the first gamepad: a stick's delta is present only
      when the stick is outside the deadzone. */
  datatype Pad = Pad(
    leftStick: Option<Delta>,
    primary: bool,      // buttons[0]
    secondary: bool,    // buttons[1]
    tertiary: bool,     // buttons[3]
    rightStick: Option<Delta>,
    dpadLeft: bool,     // buttons[12]
    dpadRight: bool)    // buttons[13]

  function RotateBy(d: Option<Delta>): seq<Action>
  {
    if d.Some? then [Rotate(d.value.vertical, d.value.horizontal)] else []
  }

  function When(b: bool, a: Action): seq<Action>
  {
    if b then [a] else []
  }

  /** The actions one run of the controller handler takes, in the order the
      handler takes them; with no gamepad present it takes none. */
  function PadActions(pad: Option<Pad>): seq<Action>
  {
    match pad
    case None => []
    case Some(p) =>
      RotateBy(p.leftStick) + When(p.primary, Commit) + When(p.secondary, Delete)
      + When(p.tertiary, Clear) + RotateBy(p.rightStick)
      + When(p.dpadLeft, MoveChar(Left)) + When(p.dpadRight, MoveChar(Right))
  }
}
