/** The immediate-mode UI of to-do/src/main.rs. Drawing is recorded as a log
    of labels instead of calls into ncurses; the `assert!` and `expect` of the
    source become errors. */
module Todo {
  import opened Common

  /** Colour pairs. */
  const RegularPair: nat := 0
  const HighlightPair: nat := 1
  const TitlePair: nat := 2

  /** Offset of the ids of done items, so that they differ from todo ids. */
  const DoneIdOffset: nat := 6969

  /** One label drawn at `(row, col)` in colour pair `pair`. */
  datatype Draw = Draw(row: nat, col: nat, text: string, pair: nat)

  /** The UI state: the id selected in the open list, if a list is open, the
      next row to draw at, the column, and what has been drawn. */
  datatype Ui = Ui(listCurr: Option<nat>, row: nat, col: nat, log: seq<Draw>)

  datatype UiError = NestedList | ElementOutsideList

  /** `Ui::default()`. */
  function Default(): (ui: Ui)
    ensures ui.listCurr.None? && ui.row == 0 && ui.col == 0 && ui.log == []
  {
    Ui(None, 0, 0, [])
  }

  /** `Ui::begin`: moves to `(row, col)`; nothing else changes. */
  function Begin(ui: Ui, row: nat, col: nat): (r: Ui)
    ensures r.row == row && r.col == col
    ensures r.listCurr == ui.listCurr && r.log == ui.log
  {
    ui.(row := row, col := col)
  }

  /** `Ui::begin_list`: opens a list whose selected element is `id`; a list
      that is already open is an error. */
  function BeginList(ui: Ui, id: nat): (r: Result<Ui, UiError>)
    ensures r.Err? <==> ui.listCurr.Some?
    ensures r.Ok? ==> r.value == ui.(listCurr := Some(id))
  {
    if ui.listCurr.Some? then Err(NestedList) else Ok(ui.(listCurr := Some(id)))
  }

  /** `Ui::end_list`: closes the list, if any; nothing else changes. */
  function EndList(ui: Ui): (r: Ui)
    ensures r.listCurr.None?
    ensures r.row == ui.row && r.col == ui.col && r.log == ui.log
  {
    ui.(listCurr := None)
  }

  /** `Ui::label`: draws `text` at the current position and moves one row down. */
  function Label(ui: Ui, text: string, pair: nat): (r: Ui)
    ensures r.row == ui.row + 1 && r.col == ui.col && r.listCurr == ui.listCurr
    ensures r.log == ui.log + [Draw(ui.row, ui.col, text, pair)]
  {
    ui.(row := ui.row + 1, log := ui.log + [Draw(ui.row, ui.col, text, pair)])
  }

  /** `Ui::list_element`: a label `- [ ] text`, highlighted when `id` is the
      list's selected id; outside a list it is an error. */
  function ListElement(ui: Ui, text: string, id: nat): (r: Result<Ui, UiError>)
    ensures r.Err? <==> ui.listCurr.None?
    ensures r.Ok? ==> r.value.row == ui.row + 1 && r.value.col == ui.col && r.value.listCurr == ui.listCurr
    ensures r.Ok? ==> exists pair ::
              r.value.log == ui.log + [Draw(ui.row, ui.col, "- [ ] " + text, pair)]
              && (pair == HighlightPair <==> ui.listCurr == Some(id))
              && (pair == RegularPair <==> ui.listCurr != Some(id))
  {
    match ui.listCurr
    case None => Err(ElementOutsideList)
    case Some(current) =>
      var pair := if current == id then HighlightPair else RegularPair;
      Ok(Label(ui, "- [ ] " + text, pair))
  }

  /** The elements of a list, with ids `offset`, `offset + 1`, ... */
  function ListElements(ui: Ui, items: seq<string>, offset: nat): (r: Result<Ui, UiError>)
    ensures r.Err? <==> ui.listCurr.None? && |items| > 0
    ensures r.Ok? ==> r.value.row == ui.row + |items| && r.value.col == ui.col
                      && r.value.listCurr == ui.listCurr
                      && |r.value.log| == |ui.log| + |items| && r.value.log[..|ui.log|] == ui.log
    ensures r.Ok? ==> forall i :: 0 <= i < |items| ==>
              r.value.log[|ui.log| + i]
              == Draw(ui.row + i, ui.col, "- [ ] " + items[i],
                      if ui.listCurr == Some(offset + i) then HighlightPair else RegularPair)
  {
    if items == [] then Ok(ui)
    else
      match ListElements(ui, items[..|items| - 1], offset)
      case Err(e) => Err(e)
      case Ok(u) => ListElement(u, items[|items| - 1], offset + |items| - 1)
  }

  /** How many entries of a log are highlighted. */
  function Highlighted(log: seq<Draw>): nat {
    if log == [] then 0
    else Highlighted(log[..|log| - 1]) + (if log[|log| - 1].pair == HighlightPair then 1 else 0)
  }

  lemma {:induction false} HighlightedConcat(a: seq<Draw>, b: seq<Draw>)
    ensures Highlighted(a + b) == Highlighted(a) + Highlighted(b)
    decreases |b|
  {
    if b == [] {
      assert a + b == a;
    } else {
      HighlightedConcat(a, b[..|b| - 1]);
      assert (a + b)[..|a + b| - 1] == a + b[..|b| - 1];
    }
  }

  /** Inside a list selecting id `s`, exactly the element with id `s`, if
      there is one, is highlighted. */
  lemma {:induction false} ListElementsHighlight(ui: Ui, items: seq<string>, offset: nat, selected: nat)
    requires ui.listCurr == Some(selected)
    ensures ListElements(ui, items, offset).Ok?
    ensures var u := ListElements(ui, items, offset).value;
            && (forall j :: |ui.log| <= j < |u.log| ==>
                  (u.log[j].pair == HighlightPair <==> offset + (j - |ui.log|) == selected))
            && Highlighted(u.log) == Highlighted(ui.log)
                 + (if offset <= selected < offset + |items| then 1 else 0)
    decreases |items|
  {
    if items != [] {
      var init := items[..|items| - 1];
      ListElementsHighlight(ui, init, offset, selected);
      var u := ListElements(ui, init, offset).value;
      var last := offset + |items| - 1;
      var w := ListElement(u, items[|items| - 1], last).value;
      var pair := if selected == last then HighlightPair else RegularPair;
      assert w.log == u.log + [Draw(u.row, u.col, "- [ ] " + items[|items| - 1], pair)];
      assert w.log[..|w.log| - 1] == u.log;
    }
  }

  /** One frame of the main loop: the TODO title and list, a separator, the
      DONE title and list. */
  function Frame(ui: Ui, todos: seq<string>, dones: seq<string>, todoCurr: nat, doneCurr: nat): (r: Result<Ui, UiError>)
    ensures r.Err? <==> ui.listCurr.Some?
    ensures r.Ok? ==> r.value.row == 3 + |todos| + |dones| && r.value.col == 0 && r.value.listCurr.None?
    ensures r.Ok? ==> |r.value.log| == |ui.log| + 3 + |todos| + |dones| && r.value.log[..|ui.log|] == ui.log
  {
    var u := Label(Begin(ui, 0, 0), ">>> TODO:", TitlePair);
    match BeginList(u, todoCurr)
    case Err(e) => Err(e)
    case Ok(u) =>
      var u := EndList(ListElements(u, todos, 0).value);
      var u := Label(u, "--------------------------------", RegularPair);
      var u := Label(u, ">>> DONE:", TitlePair);
      var u := BeginList(u, doneCurr + DoneIdOffset).value;
      var u := ListElements(u, dones, DoneIdOffset).value;
      Ok(EndList(u))
  }

  /** A frame highlights the selected todo when it exists, and the selected
      done item when it exists; nothing else. */
  lemma FrameHighlight(ui: Ui, todos: seq<string>, dones: seq<string>, todoCurr: nat, doneCurr: nat)
    requires ui.listCurr.None?
    ensures Frame(ui, todos, dones, todoCurr, doneCurr).Ok?
    ensures var u := Frame(ui, todos, dones, todoCurr, doneCurr).value;
            Highlighted(u.log) == Highlighted(ui.log)
              + (if todoCurr < |todos| then 1 else 0) + (if doneCurr < |dones| then 1 else 0)
  {
    var u0 := Label(Begin(ui, 0, 0), ">>> TODO:", TitlePair);
    HighlightedConcat(ui.log, [Draw(0, 0, ">>> TODO:", TitlePair)]);
    var u1 := u0.(listCurr := Some(todoCurr));
    ListElementsHighlight(u1, todos, 0, todoCurr);
    var u2 := EndList(ListElements(u1, todos, 0).value);
    var u3 := Label(u2, "--------------------------------", RegularPair);
    HighlightedConcat(u2.log, [Draw(u2.row, u2.col, "--------------------------------", RegularPair)]);
    var u4 := Label(u3, ">>> DONE:", TitlePair);
    HighlightedConcat(u3.log, [Draw(u3.row, u3.col, ">>> DONE:", TitlePair)]);
    var u5 := u4.(listCurr := Some(doneCurr + DoneIdOffset));
    ListElementsHighlight(u5, dones, DoneIdOffset, doneCurr + DoneIdOffset);
  }

  // ---------------------------------------------------------------------------
  // Keys

  /** `key as u8 as char`: the key code truncated to its low byte. */
  function KeyChar(key: int): (c: char)
    ensures (c as int) == key % 0x100
  {
    (key % 0x100) as char
  }

  datatype KeyOutcome = KeyOutcome(todoCurr: nat, quit: bool)

  /** One key of the main loop: `q` quits, `w` moves up unless at the top,
      `s` moves down but not past the last todo; other keys do nothing. */
  function KeyStep(todoCurr: nat, count: nat, key: int): (r: Result<KeyOutcome, Overflow>)
    ensures r.Err? <==> KeyChar(key) == 's' && count == 0
    ensures r.Ok? ==> (r.value.quit <==> KeyChar(key) == 'q')
    ensures r.Ok? && KeyChar(key) !in {'w', 's'} ==> r.value.todoCurr == todoCurr
    ensures KeyChar(key) == 'w' ==> r.Ok? && r.value.todoCurr == if todoCurr > 0 then todoCurr - 1 else 0
    ensures KeyChar(key) == 's' && count > 0 ==> r.Ok? && r.value.todoCurr == Min(todoCurr + 1, count - 1)
    ensures r.Ok? && todoCurr < count ==> r.value.todoCurr < count
  {
    match KeyChar(key)
    case 'q' => Ok(KeyOutcome(todoCurr, true))
    case 'w' => Ok(KeyOutcome(if todoCurr > 0 then todoCurr - 1 else todoCurr, false))
    case 's' => if count == 0 then Err(Overflow) else Ok(KeyOutcome(Min(todoCurr + 1, count - 1), false))
    case _ => Ok(KeyOutcome(todoCurr, false))
  }

  /** Key codes that agree in their low byte act alike. */
  lemma KeyStepLowByte(todoCurr: nat, count: nat, key: int)
    ensures KeyStep(todoCurr, count, key + 0x100) == KeyStep(todoCurr, count, key)
  {
    assert (key + 0x100) % 0x100 == key % 0x100;
    assert KeyChar(key + 0x100) == KeyChar(key);
  }

  /** `s` then `w` returns to the same todo unless it was the last; `w` then
      `s` returns to it unless it was the first. */
  lemma UpDownInverse(todoCurr: nat, count: nat)
    requires todoCurr < count
    ensures todoCurr + 1 < count ==>
              KeyStep(KeyStep(todoCurr, count, 's' as int).value.todoCurr, count, 'w' as int).value.todoCurr == todoCurr
    ensures todoCurr > 0 ==>
              KeyStep(KeyStep(todoCurr, count, 'w' as int).value.todoCurr, count, 's' as int).value.todoCurr == todoCurr
    ensures KeyStep(count - 1, count, 's' as int).value.todoCurr == count - 1
    ensures KeyStep(0, count, 'w' as int).value.todoCurr == 0
  {
  }

  /** The keys of a run of the program, up to the first `q`: the selection
      stays on an existing todo for a non-empty list. */
  function Keys(todoCurr: nat, count: nat, keys: seq<int>): (r: Result<KeyOutcome, Overflow>)
    ensures count > 0 && todoCurr < count ==> r.Ok? && r.value.todoCurr < count
    decreases |keys|
  {
    if keys == [] then Ok(KeyOutcome(todoCurr, false))
    else
      match KeyStep(todoCurr, count, keys[0])
      case Err(e) => Err(e)
      case Ok(o) => if o.quit then Ok(o) else Keys(o.todoCurr, count, keys[1..])
  }
}
