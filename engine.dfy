/** The `HemisphericalKeyboard` component's state and handlers, as an object
    whose fields are its state hooks and its debounce ref. Each method leaves
    the fields as React settles them after the handler's updates and the
    effects they trigger, which the functions of `Selection` describe; the
    one exception is `Rotate`, which is the corrected rotation (see
    `Selection.Rotated`), not `handleRotation` as written. */
module Engine {
  import opened Wrappers
  import opened Catalog
  import opened Rotation
  import opened Cursor
  import opened Buffer
  import opened RateLimit
  import opened Selection

  class Keyboard {
    var text: string
    var vertical: int
    var horizontal: int
    var sector: Option<string>
    var highlight: Option<char>
    var rowIndex: int
    var charIndex: int
    /** `selectingRef`, as the time it was last set: the ref stays true from
        then until its reset timer runs DEBOUNCE_TIME ms later. */
    var lastCommit: Option<int>
    /** For the proof: every time the debounce gate has fired. */
    ghost var commits: seq<int>

    ghost function Snapshot(): State
      reads this
    {
      State(text, vertical, horizontal, sector, highlight, rowIndex, charIndex, lastCommit)
    }

    /** The settled-state invariant, and firings of the commit gate at least
        DEBOUNCE_TIME ms apart. */
    ghost predicate Valid()
      reads this
    {
      && Inv(Snapshot())
      && Spaced(commits, DEBOUNCE_TIME)
      && lastCommit == Latest(commits)
    }

    /** Mounting the component. */
    constructor ()
      ensures Valid() && Snapshot() == Initial() && commits == []
    {
      text := [];
      vertical, horizontal := 0, 0;
      sector, highlight := None, None;
      rowIndex, charIndex := 0, 0;
      lastCommit := None;
      commits := [];
      new;
      // the row effect runs on mount
      var row := Sectors[rowIndex];
      sector := Some(row);
      charIndex := 0;
      // the highlight effect runs once the sector is set
      highlight := Some(row[charIndex]);
    }

    /** `handleRotation(dv, dh)` corrected: the horizontal angle always
        wraps into [0, 360) and the sector is derived from the new angle.
        `Selection.RotatedAsWritten` is the handler as the component writes it. */
    method Rotate(dv: int, dh: int)
      requires Valid()
      modifies this
      ensures Valid() && commits == old(commits)
      ensures Snapshot() == Rotated(old(Snapshot()), dv, dh)
    {
      vertical := Tilt(vertical, dv);
      horizontal := Wrap(horizontal, dh);
      var row := Sectors[SectorOf(horizontal)];
      sector := Some(row);
      charIndex := 0;
      // the highlight effect, on the new sector
      highlight := Some(row[0]);
    }

    /** ArrowUp (Previous) and ArrowDown (Next). */
    method MoveRow(d: RowDirection)
      requires Valid()
      modifies this
      ensures Valid() && commits == old(commits)
      ensures Snapshot() == RowMoved(old(Snapshot()), d)
    {
      rowIndex := if d == Previous then StepBack(rowIndex, ROW_COUNT) else StepForward(rowIndex, ROW_COUNT);
      // the row effect: with more than one row the index always changes
      var row := Sectors[rowIndex];
      sector := Some(row);
      charIndex := 0;
      // the highlight effect
      highlight := Some(row[0]);
    }

    /** `handleDPadNavigation(direction)`. The handler itself highlights the
        character under the index as it was before the step; the highlight
        effect then replaces it with the one under the new index. */
    method MoveChar(d: Direction)
      requires Valid()
      modifies this
      ensures Valid() && commits == old(commits)
      ensures Snapshot() == CharMoved(old(Snapshot()), d)
    {
      if sector.Some? {
        var row := sector.value;
        var n := |row|;
        var before := charIndex;
        charIndex := if d == Left then StepBack(charIndex, n) else StepForward(charIndex, n);
        highlight := Some(row[before]);
        // the highlight effect, on the new index
        highlight := Some(row[charIndex]);
      }
    }

    /** `handleCharacterSelection()` */
    method CommitSelection()
      requires Valid()
      modifies this
      ensures Valid() && commits == old(commits) && lastCommit == old(lastCommit)
      ensures Snapshot() == Committed(old(Snapshot()))
    {
      if highlight.Some? {
        text := text + [highlight.value];
        sector := None;
        highlight := None;
        charIndex := 0;
      }
    }

    /** Enter or the primary button at time `now`, behind the debounce ref
        that both sources share. */
    method TriggerCommit(now: int) returns (fired: bool)
      requires Valid()
      modifies this
      ensures Valid()
      ensures fired == GateOpen(old(lastCommit), now, DEBOUNCE_TIME)
      ensures commits == if fired then old(commits) + [now] else old(commits)
      ensures Snapshot() == GatedCommit(old(Snapshot()), now)
    {
      fired := lastCommit.None? || now >= lastCommit.value + DEBOUNCE_TIME;
      if fired {
        lastCommit := Some(now);
        commits := commits + [now];
        CommitSelection();
      }
    }

    /** The secondary button: `setText(text => text.slice(0, -1))`. */
    method Delete()
      requires Valid()
      modifies this
      ensures Valid() && commits == old(commits)
      ensures Snapshot() == Deleted(old(Snapshot()))
    {
      text := DropLast(text);
    }

    /** The tertiary button: `setText('')`. */
    method Clear()
      requires Valid()
      modifies this
      ensures Valid() && commits == old(commits)
      ensures Snapshot() == Cleared(old(Snapshot()))
    {
      text := [];
    }

    /** One action, whichever source issued it. */
    method Dispatch(a: Action, now: int)
      requires Valid()
      modifies this
      ensures Valid()
      ensures Snapshot() == Apply(old(Snapshot()), a, now)
    {
      match a
      case Rotate(dv, dh) => Rotate(dv, dh);
      case MoveRow(d) => MoveRow(d);
      case MoveChar(d) => MoveChar(d);
      case Commit => var _ := TriggerCommit(now);
      case Delete => Delete();
      case Clear => Clear();
    }

    /** `handleKeyDown` for a key press at time `now`. */
    method KeyDown(key: string, now: int)
      requires Valid()
      modifies this
      ensures Valid()
      ensures Snapshot() == RunAll(old(Snapshot()), KeyActions(key), now)
    {
      if key == "ArrowUp" {
        MoveRow(Previous);
      } else if key == "ArrowDown" {
        MoveRow(Next);
      } else if key == "ArrowLeft" {
        MoveChar(Left);
      } else if key == "ArrowRight" {
        MoveChar(Right);
      } else if key == "Enter" {
        var _ := TriggerCommit(now);
      }
    }

    /** Runs `acts[k..]` after `acts[..k]` has been run from `s0`. */
    method RunFrom(ghost s0: State, acts: seq<Action>, k: nat, now: int)
      requires Valid() && Inv(s0) && k <= |acts|
      requires Snapshot() == RunAll(s0, acts[..k], now)
      modifies this
      ensures Valid()
      ensures Snapshot() == RunAll(s0, acts, now)
      decreases |acts| - k
    {
      if k < |acts| {
        Dispatch(acts[k], now);
        assert acts[..k + 1][..k] == acts[..k];
        RunFrom(s0, acts, k + 1, now);
      } else {
        assert acts[..k] == acts;
      }
    }

    /** One run of the throttled controller handler at time `now`, with the
        snapshot of the first gamepad (None when none is connected): left
        stick, primary, secondary and tertiary buttons, right stick, then the
        two d-pad buttons, each acted on in that order. */
    method ControllerTick(pad: Option<Pad>, now: int)
      requires Valid()
      modifies this
      ensures Valid()
      ensures Snapshot() == RunAll(old(Snapshot()), PadActions(pad), now)
    {
      ghost var s0 := Snapshot();
      RunFrom(s0, PadActions(pad), 0, now);
    }
  }
}
