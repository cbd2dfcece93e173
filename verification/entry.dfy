/** One `Host` section of an OpenSSH client configuration file, as
    ssh-config/src/entry.rs holds it, and its text rendering. */
module Entry {
  import opened Common

  datatype SshConfigEntry = SshConfigEntry(
    host: string,
    options: seq<(string, string)>,
    comments: seq<string>,
    tag: Option<string>)

  /** `set_tag` replaces the tag and nothing else. */
  function SetTag(e: SshConfigEntry, tag: string): (r: SshConfigEntry)
    ensures r.tag == Some(tag)
    ensures r.host == e.host && r.options == e.options && r.comments == e.comments
  {
    e.(tag := Some(tag))
  }

  /** The lines `display` writes, each without its terminating newline:
      the host line, one line per option, one per comment, then the tag line if any. */
  function DisplayLines(e: SshConfigEntry): seq<string> {
    ["Host: " + e.host]
    + seq(|e.options|, i requires 0 <= i < |e.options| => "  " + e.options[i].0 + " => " + e.options[i].1)
    + seq(|e.comments|, i requires 0 <= i < |e.comments| => "  // " + e.comments[i])
    + (match e.tag case Some(t) => ["  >> " + t] case None => [])
  }

  /** Every line followed by a newline, as successive `push_str(&format!("…\n"))` calls build it. */
  function Unlines(lines: seq<string>): string {
    if lines == [] then [] else Unlines(lines[..|lines| - 1]) + lines[|lines| - 1] + "\n"
  }

  function CountNewlines(s: string): nat {
    multiset(s)['\n']
  }

  predicate NoNewline(s: string) {
    '\n' !in s
  }

  /** No field of the entry contains a line break. */
  predicate SingleLineFields(e: SshConfigEntry) {
    && NoNewline(e.host)
    && (forall i :: 0 <= i < |e.options| ==> NoNewline(e.options[i].0) && NoNewline(e.options[i].1))
    && (forall i :: 0 <= i < |e.comments| ==> NoNewline(e.comments[i]))
    && (e.tag.Some? ==> NoNewline(e.tag.value))
  }

  function TagLineCount(e: SshConfigEntry): nat {
    if e.tag.Some? then 1 else 0
  }

  /** `display`: the string is built as the source builds it, by appending one
      formatted line per field in a loop, and is the newline-terminated
      concatenation of `DisplayLines`. */
  method Display(e: SshConfigEntry) returns (s: string)
    ensures s == Unlines(DisplayLines(e))
    ensures |s| > 0 && s[|s| - 1] == '\n'
  {
    var lines: seq<string> := ["Host: " + e.host];
    s := "Host: " + e.host + "\n";
    assert s == Unlines(lines);
    var i := 0;
    while i < |e.options|
      invariant 0 <= i <= |e.options|
      invariant lines == ["Host: " + e.host]
                         + seq(i, k requires 0 <= k < i => "  " + e.options[k].0 + " => " + e.options[k].1)
      invariant s == Unlines(lines)
    {
      var line := "  " + e.options[i].0 + " => " + e.options[i].1;
      s := s + line + "\n";
      lines := lines + [line];
      i := i + 1;
    }
    var j := 0;
    var optionLines := lines;
    while j < |e.comments|
      invariant 0 <= j <= |e.comments|
      invariant lines == optionLines + seq(j, k requires 0 <= k < j => "  // " + e.comments[k])
      invariant s == Unlines(lines)
    {
      var line := "  // " + e.comments[j];
      s := s + line + "\n";
      lines := lines + [line];
      j := j + 1;
    }
    if e.tag.Some? {
      var line := "  >> " + e.tag.value;
      s := s + line + "\n";
      lines := lines + [line];
    }
    assert lines == DisplayLines(e);
  }

  lemma {:induction false} UnlinesAppend(a: seq<string>, b: seq<string>)
    ensures Unlines(a + b) == Unlines(a) + Unlines(b)
    decreases |b|
  {
    if b == [] {
      assert a + b == a;
    } else {
      var b' := b[..|b| - 1];
      assert (a + b)[..|a + b| - 1] == a + b';
      UnlinesAppend(a, b');
    }
  }

  /** No line contains a line break. */
  predicate SingleLines(lines: seq<string>) {
    forall i :: 0 <= i < |lines| ==> NoNewline(lines[i])
  }

  /** With single-line fields, the text holds exactly one newline per line. */
  lemma {:induction false} UnlinesNewlines(lines: seq<string>)
    requires SingleLines(lines)
    ensures CountNewlines(Unlines(lines)) == |lines|
    decreases |lines|
  {
    if lines != [] {
      var last := lines[|lines| - 1];
      UnlinesNewlines(lines[..|lines| - 1]);
      assert multiset(last)['\n'] == 0;
    }
  }

  /** The display has one line for the host, one per option, one per comment and one for a tag. */
  lemma DisplayLineCount(e: SshConfigEntry)
    ensures |DisplayLines(e)| == 1 + |e.options| + |e.comments| + TagLineCount(e)
  {
  }

  /** The display begins with the host line and ends with a newline. */
  lemma DisplayFrame(e: SshConfigEntry)
    ensures var s := Unlines(DisplayLines(e));
            |s| > |"Host: " + e.host| && s[..|"Host: " + e.host| + 1] == "Host: " + e.host + "\n"
            && s[|s| - 1] == '\n'
  {
    var lines := DisplayLines(e);
    assert lines == [lines[0]] + lines[1..];
    UnlinesAppend([lines[0]], lines[1..]);
    assert Unlines([lines[0]]) == Unlines([]) + lines[0] + "\n";
  }

  lemma SingleLinesAppend(a: seq<string>, b: seq<string>)
    requires SingleLines(a) && SingleLines(b)
    ensures SingleLines(a + b)
  {
    forall i | 0 <= i < |a + b| ensures NoNewline((a + b)[i]) {
      if i >= |a| { assert (a + b)[i] == b[i - |a|]; }
    }
  }

  /** When no field spans lines, the display text has exactly
      1 + |options| + |comments| + (1 if tagged) newlines, so that many lines. */
  lemma DisplayNewlineCount(e: SshConfigEntry)
    requires SingleLineFields(e)
    ensures CountNewlines(Unlines(DisplayLines(e))) == 1 + |e.options| + |e.comments| + TagLineCount(e)
  {
    var host := ["Host: " + e.host];
    var options := seq(|e.options|, i requires 0 <= i < |e.options| => "  " + e.options[i].0 + " => " + e.options[i].1);
    var comments := seq(|e.comments|, i requires 0 <= i < |e.comments| => "  // " + e.comments[i]);
    var tag := match e.tag case Some(t) => ["  >> " + t] case None => [];
    var lines := DisplayLines(e);
    assert lines == host + options + comments + tag;
    assert SingleLines(host);
    assert SingleLines(options) by {
      forall i | 0 <= i < |options| ensures NoNewline(options[i]) {
        assert options[i] == "  " + e.options[i].0 + " => " + e.options[i].1;
      }
    }
    assert SingleLines(comments) by {
      forall i | 0 <= i < |comments| ensures NoNewline(comments[i]) {
        assert comments[i] == "  // " + e.comments[i];
      }
    }
    assert SingleLines(tag);
    SingleLinesAppend(host, options);
    SingleLinesAppend(host + options, comments);
    SingleLinesAppend(host + options + comments, tag);
    UnlinesNewlines(lines);
  }

  /** An entry with no options, comments or tag displays as its host line alone. */
  lemma DisplayBareEntry(host: string)
    ensures Unlines(DisplayLines(SshConfigEntry(host, [], [], None))) == "Host: " + host + "\n"
  {
    var e := SshConfigEntry(host, [], [], None);
    assert DisplayLines(e) == ["Host: " + host];
    assert Unlines(["Host: " + host]) == Unlines([]) + ("Host: " + host) + "\n";
  }
}
