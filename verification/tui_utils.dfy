/** The content of the detail pop-up drawn by `render_popup_table` in
    ssh-config/src/tui_utils.rs: its title and its rows as (label, value)
    pairs. Colours, borders and layout are not modelled. */
module TuiUtils {
  import opened Common
  import opened Text
  import opened Entry

  type Row = (string, string)

  /** The title `format!(" {} ", entry.host)`. */
  function PopupTitle(e: SshConfigEntry): (r: string)
    ensures |r| == |e.host| + 2 && r[1..|r| - 1] == e.host
    ensures r[0] == ' ' && r[|r| - 1] == ' '
  {
    " " + e.host + " "
  }

  /** Declarative row sequence: the host row, the options, one `Comment` row
      per comment, then a `Tag` row when the entry is tagged. */
  function PopupRows(e: SshConfigEntry): seq<Row> {
    [("Host", e.host)]
    + e.options
    + seq(|e.comments|, i requires 0 <= i < |e.comments| => ("Comment", e.comments[i]))
    + (match e.tag case Some(t) => [("Tag", t)] case None => [])
  }

  /** The rows as the source builds them: start from the host row and push a
      row per option, per comment and for the tag. */
  method RenderPopupRows(e: SshConfigEntry) returns (rows: seq<Row>)
    ensures rows == PopupRows(e)
  {
    rows := [("Host", e.host)];
    var i := 0;
    while i < |e.options|
      invariant 0 <= i <= |e.options|
      invariant rows == [("Host", e.host)] + e.options[..i]
    {
      rows := rows + [e.options[i]];
      assert e.options[..i + 1] == e.options[..i] + [e.options[i]];
      i := i + 1;
    }
    assert e.options[..i] == e.options;
    var j := 0;
    while j < |e.comments|
      invariant 0 <= j <= |e.comments|
      invariant rows == [("Host", e.host)] + e.options
                        + seq(j, k requires 0 <= k < j => ("Comment", e.comments[k]))
    {
      rows := rows + [("Comment", e.comments[j])];
      j := j + 1;
    }
    match e.tag {
      case Some(t) => rows := rows + [("Tag", t)];
      case None =>
    }
  }

  /** Row by row: host first, options in order, comments in order, a tag row
      last exactly when a tag is present. */
  lemma PopupRowsLayout(e: SshConfigEntry)
    ensures var rows := PopupRows(e);
      && |rows| == 1 + |e.options| + |e.comments| + TagLineCount(e)
      && rows[0] == ("Host", e.host)
      && (forall i :: 0 <= i < |e.options| ==> rows[1 + i] == e.options[i])
      && (forall i :: 0 <= i < |e.comments| ==> rows[1 + |e.options| + i] == ("Comment", e.comments[i]))
      && (forall t :: e.tag == Some(t) <==> rows[|rows| - 1] == ("Tag", t) && |rows| == 2 + |e.options| + |e.comments|)
  {
  }

  /** The pop-up and the text rendering of `display` list the same fields in the
      same order: line `i` of the display ends with the value of row `i`. */
  lemma PopupRowsMatchDisplay(e: SshConfigEntry)
    ensures |PopupRows(e)| == |DisplayLines(e)|
    ensures forall i :: 0 <= i < |PopupRows(e)| ==>
              var v := PopupRows(e)[i].1;
              |v| <= |DisplayLines(e)[i]| && DisplayLines(e)[i][|DisplayLines(e)[i]| - |v|..] == v
  {
    var rows, lines := PopupRows(e), DisplayLines(e);
    forall i | 0 <= i < |rows|
      ensures |rows[i].1| <= |lines[i]| && lines[i][|lines[i]| - |rows[i].1|..] == rows[i].1
    {
      if i == 0 {
        assert lines[0] == "Host: " + e.host;
      } else if i < 1 + |e.options| {
        assert lines[i] == "  " + e.options[i - 1].0 + " => " + e.options[i - 1].1;
      } else if i < 1 + |e.options| + |e.comments| {
        assert lines[i] == "  // " + e.comments[i - 1 - |e.options|];
      } else {
        assert lines[i] == "  >> " + e.tag.value;
      }
    }
  }

  /** Trimming the title gives back a trimmed host name, as the parser produces. */
  lemma PopupTitleTrims(e: SshConfigEntry)
    requires IsTrimmed(e.host)
    ensures Trim(PopupTitle(e)) == e.host
  {
    TrimUnique(" ", e.host, " ");
  }
}
