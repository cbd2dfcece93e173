/** The selection handling of the host list in `run_tui`
    (ssh-config/src/main.rs): the initial selection, wrap-around stepping with
    the Up and Down keys, leaving with `q`, and selecting a row with the mouse.
    Drawing and the terminal are not modelled; events arrive as a sequence. */
module SshMain {
  import opened Common

  /** A terminal row, a `u16` in the source. */
  type Row = r: nat | r < 0x1_0000

  /** First terminal row of the host list: the outer margin and the list's border. */
  const ListStart: Row := 2

  datatype Key = Char(c: char) | ArrowDown | ArrowUp | OtherKey

  datatype Event =
    | KeyEvent(key: Key)
    | MouseDown(row: Row)
    | OtherMouse
    | OtherEvent

  /** No selection, or the index of an existing host. */
  predicate ValidSelection(selection: Option<nat>, count: nat) {
    match selection
    case Some(i) => i < count
    case None => true
  }

  /** The first host is selected when there is one, nothing otherwise. */
  function InitialSelection(count: nat): (r: Option<nat>)
    ensures r.Some? <==> count > 0
    ensures r.Some? ==> r.value == 0
    ensures ValidSelection(r, count)
  {
    if count > 0 then Some(0) else None
  }

  // ---------------------------------------------------------------------------
  // Up and Down, as written: `hosts.len() - 1` is computed in `usize`.

  /** The Down key as written: no selection goes to 0, the last index wraps to
      0, any other goes one down; with no hosts, `hosts.len() - 1` overflows. */
  function DownAsWritten(selection: Option<nat>, count: nat): (r: Result<Option<nat>, Overflow>)
    ensures r.Err? <==> selection.Some? && count == 0
    ensures selection.None? ==> r == Ok(Some(0))
    ensures forall i :: selection == Some(i) && i + 1 < count ==> r == Ok(Some(i + 1))
    ensures forall i :: selection == Some(i) && 0 < count <= i + 1 ==> r == Ok(Some(0))
  {
    match selection
    case None => Ok(Some(0))
    case Some(i) =>
      if count == 0 then Err(Overflow)
      else if i >= count - 1 then Ok(Some(0))
      else Ok(Some(i + 1))
  }

  /** The Up key as written: no selection goes to 0, index 0 wraps to the last
      index, any other goes one up; with no hosts, `hosts.len() - 1` overflows. */
  function UpAsWritten(selection: Option<nat>, count: nat): (r: Result<Option<nat>, Overflow>)
    ensures r.Err? <==> selection == Some(0) && count == 0
    ensures selection.None? ==> r == Ok(Some(0))
    ensures forall i :: selection == Some(i) && i > 0 ==> r == Ok(Some(i - 1))
    ensures selection == Some(0) && count > 0 ==> r == Ok(Some(count - 1))
  {
    match selection
    case None => Ok(Some(0))
    case Some(i) =>
      if i == 0 then (if count == 0 then Err(Overflow) else Ok(Some(count - 1)))
      else Ok(Some(i - 1))
  }

  /** With no hosts, one Down selects a row that does not exist and a second
      Down overflows. */
  lemma EmptyListDownTwiceOverflows()
    ensures DownAsWritten(None, 0) == Ok(Some(0))
    ensures DownAsWritten(Some(0), 0) == Err(Overflow)
    ensures UpAsWritten(Some(0), 0) == Err(Overflow)
  {
  }

  // ---------------------------------------------------------------------------
  // Up and Down, corrected: with no hosts there is nothing to select.

  /** The Down key: as written whenever there are hosts, no selection otherwise. */
  function Down(selection: Option<nat>, count: nat): (r: Option<nat>)
    ensures count == 0 ==> r == None
    ensures count > 0 ==> r.Some? && r.value < count && DownAsWritten(selection, count) == Ok(r)
    ensures forall i :: selection == Some(i) && i + 1 < count ==> r == Some(i + 1)
  {
    if count == 0 then None
    else
      match selection
      case None => Some(0)
      case Some(i) => if i >= count - 1 then Some(0) else Some(i + 1)
  }

  /** The Up key: as written whenever there are hosts, no selection otherwise. */
  function Up(selection: Option<nat>, count: nat): (r: Option<nat>)
    ensures count == 0 ==> r == None
    ensures count > 0 ==> r.Some? && UpAsWritten(selection, count) == Ok(r)
    ensures forall i :: selection == Some(i) && 0 < i < count ==> r == Some(i - 1)
    ensures ValidSelection(selection, count) ==> ValidSelection(r, count)
  {
    if count == 0 then None
    else
      match selection
      case None => Some(0)
      case Some(i) => if i == 0 then Some(count - 1) else Some(i - 1)
  }

  /** Down and Up wrap around: past the last host comes the first, before the
      first comes the last. */
  lemma Wraparound(count: nat)
    requires count > 0
    ensures Down(Some(count - 1), count) == Some(0)
    ensures Up(Some(0), count) == Some(count - 1)
    ensures Down(None, count) == Some(0) && Up(None, count) == Some(0)
  {
  }

  /** On a selected host, Up undoes Down and Down undoes Up. */
  lemma UpDownInverse(i: nat, count: nat)
    requires i < count
    ensures Up(Down(Some(i), count), count) == Some(i)
    ensures Down(Up(Some(i), count), count) == Some(i)
  {
  }

  // ---------------------------------------------------------------------------
  // Mouse, as written: `list_start + hosts.len() as u16` truncates the count
  // to 16 bits and then adds in `u16`.

  /** A button press on a row of the list selects that host; elsewhere nothing
      changes. The bound is computed in `u16` only once `row >= 2` holds. */
  function MouseAsWritten(selection: Option<nat>, row: Row, count: nat): (r: Result<Option<nat>, Overflow>)
    ensures count + ListStart < 0x1_0000 ==>
              r == Ok(if ListStart <= row < ListStart + count then Some(row - ListStart) else selection)
    ensures count % 0x1_0000 == 0 ==> r == Ok(selection)
  {
    if row < ListStart then Ok(selection)
    else
      var bound := ListStart + count % 0x1_0000;
      if bound >= 0x1_0000 then Err(Overflow)
      else if row < bound then Ok(Some(row - ListStart))
      else Ok(selection)
  }

  /** With 65534 hosts the bound overflows; with 65536 no click selects anything. */
  lemma LargeListMouse()
    ensures MouseAsWritten(None, 2, 65534) == Err(Overflow)
    ensures MouseAsWritten(None, 2, 65536) == Ok(None)
  {
  }

  // ---------------------------------------------------------------------------
  // Mouse, corrected: the bound is computed without truncation.

  /** A button press on row `r` selects host `r - 2` exactly when that host
      exists; otherwise the selection is unchanged. */
  function Mouse(selection: Option<nat>, row: Row, count: nat): (r: Option<nat>)
    ensures ListStart <= row < ListStart + count ==> r == Some(row - ListStart)
    ensures !(ListStart <= row < ListStart + count) ==> r == selection
    ensures ValidSelection(selection, count) ==> ValidSelection(r, count)
    ensures count + ListStart < 0x1_0000 ==> MouseAsWritten(selection, row, count) == Ok(r)
  {
    if ListStart <= row < ListStart + count then Some(row - ListStart) else selection
  }

  // ---------------------------------------------------------------------------
  // The main loop

  /** A key other than `q`: Down and Up step, every other key is ignored. */
  function KeyStep(selection: Option<nat>, key: Key, count: nat): (r: Option<nat>)
    ensures key != ArrowDown && key != ArrowUp ==> r == selection
    ensures ValidSelection(selection, count) ==> ValidSelection(r, count)
  {
    match key
    case ArrowDown => Down(selection, count)
    case ArrowUp => Up(selection, count)
    case _ => selection
  }

  datatype LoopEnd = LoopEnd(selection: Option<nat>, quit: bool)

  /** The loop over the events. Each iteration reads one event and handles it
      only if it is a key, where `q` leaves the loop at once; it then reads a
      second event and handles it only if it is a mouse press. The model stops
      without quitting when the events run out. */
  function Run(selection: Option<nat>, events: seq<Event>, count: nat): (r: LoopEnd)
    ensures ValidSelection(selection, count) ==> ValidSelection(r.selection, count)
    decreases |events|
  {
    if events == [] then LoopEnd(selection, false)
    else if events[0] == KeyEvent(Char('q')) then LoopEnd(selection, true)
    else
      var afterKey := match events[0] case KeyEvent(k) => KeyStep(selection, k, count) case _ => selection;
      if |events| == 1 then LoopEnd(afterKey, false)
      else
        var afterMouse := match events[1] case MouseDown(row) => Mouse(afterKey, row, count) case _ => afterKey;
        Run(afterMouse, events[2..], count)
  }

  /** A key other than `q` with the handlers as written. */
  function KeyStepAsWritten(selection: Option<nat>, key: Key, count: nat): (r: Result<Option<nat>, Overflow>)
    ensures key != ArrowDown && key != ArrowUp ==> r == Ok(selection)
    ensures count > 0 ==> r == Ok(KeyStep(selection, key, count))
  {
    match key
    case ArrowDown => DownAsWritten(selection, count)
    case ArrowUp => UpAsWritten(selection, count)
    case _ => Ok(selection)
  }

  /** The loop over the events with the handlers as written, where an
      overflow ends the run. Below 65534 hosts and with at least one host it
      is exactly the loop with the corrected handlers. The frame drawn between
      the reads is not modelled. */
  function RunAsWritten(selection: Option<nat>, events: seq<Event>, count: nat): (r: Result<LoopEnd, Overflow>)
    ensures 0 < count && count + ListStart < 0x1_0000 ==> r == Ok(Run(selection, events, count))
    decreases |events|
  {
    if events == [] then Ok(LoopEnd(selection, false))
    else if events[0] == KeyEvent(Char('q')) then Ok(LoopEnd(selection, true))
    else
      var afterKey := match events[0] case KeyEvent(k) => KeyStepAsWritten(selection, k, count) case _ => Ok(selection);
      match afterKey
      case Err(e) => Err(e)
      case Ok(s1) =>
        if |events| == 1 then Ok(LoopEnd(s1, false))
        else
          var afterMouse := match events[1] case MouseDown(row) => MouseAsWritten(s1, row, count) case _ => Ok(s1);
          match afterMouse
          case Err(e) => Err(e)
          case Ok(s2) => RunAsWritten(s2, events[2..], count)
  }

  /** With no hosts the loop as written selects a row that does not exist,
      and the next Down overflows. */
  lemma EmptyListRun()
    ensures RunAsWritten(None, [KeyEvent(ArrowDown)], 0) == Ok(LoopEnd(Some(0), false))
    ensures !ValidSelection(Some(0), 0)
    ensures RunAsWritten(None, [KeyEvent(ArrowDown), OtherEvent, KeyEvent(ArrowDown)], 0) == Err(Overflow)
  {
    var events := [KeyEvent(ArrowDown), OtherEvent, KeyEvent(ArrowDown)];
    assert events[2..] == [KeyEvent(ArrowDown)];
  }

  /** From the initial selection, with between 1 and 65533 hosts, the loop as
      written never overflows and its selection names an existing host. */
  lemma RunAsWrittenFromStart(events: seq<Event>, count: nat)
    requires 0 < count && count + ListStart < 0x1_0000
    ensures RunAsWritten(InitialSelection(count), events, count).Ok?
    ensures ValidSelection(RunAsWritten(InitialSelection(count), events, count).value.selection, count)
  {
    RunFromStart(events, count);
  }

  /** `q` read by the first read of an iteration ends the loop with the
      selection unchanged. */
  lemma QuitEndsLoop(selection: Option<nat>, rest: seq<Event>, count: nat)
    ensures Run(selection, [KeyEvent(Char('q'))] + rest, count) == LoopEnd(selection, true)
  {
  }

  /** A key, `q` included, read by the second read of an iteration is ignored. */
  lemma SecondReadIgnoresKeys(selection: Option<nat>, first: Key, second: Key, rest: seq<Event>, count: nat)
    requires first != Char('q')
    ensures Run(selection, [KeyEvent(first), KeyEvent(second)] + rest, count)
            == Run(KeyStep(selection, first, count), rest, count)
  {
    assert ([KeyEvent(first), KeyEvent(second)] + rest)[2..] == rest;
  }

  /** From the initial selection, the selection always names an existing host. */
  lemma RunFromStart(events: seq<Event>, count: nat)
    ensures ValidSelection(Run(InitialSelection(count), events, count).selection, count)
  {
  }
}
