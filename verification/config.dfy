/** The parser `read_ssh_config` of ssh-config/src/config.rs, as a pure
    function over the lines of the file. Each line is trimmed, then matched
    against the four regular expressions of the source in the order the
    source tries them; the expressions are written out here as functions over
    the trimmed line. Opening and reading the file is not modelled. */
module Config {
  import opened Common
  import opened Text
  import opened Entry

  // ---------------------------------------------------------------------------
  // Character runs

  predicate AllDashes(s: string) {
    forall i :: 0 <= i < |s| ==> s[i] == '-'
  }

  /** Length of the run of `-` that starts `s`. */
  function LeadingDashes(s: string): (n: nat)
    ensures n <= |s| && forall i :: 0 <= i < n ==> s[i] == '-'
    ensures n < |s| ==> s[n] != '-'
  {
    if |s| > 0 && s[0] == '-' then 1 + LeadingDashes(s[1..]) else 0
  }

  /** Length of the run of `-` that ends `s`. */
  function TrailingDashes(s: string): (n: nat)
    ensures n <= |s| && forall i :: |s| - n <= i < |s| ==> s[i] == '-'
    ensures n < |s| ==> s[|s| - n - 1] != '-'
  {
    if |s| > 0 && s[|s| - 1] == '-' then 1 + TrailingDashes(s[..|s| - 1]) else 0
  }

  /** Length of the run of whitespace that starts `s` (what a greedy `\s+` takes). */
  function LeadingWhitespace(s: string): (n: nat)
    ensures n <= |s| && AllWhitespace(s[..n])
    ensures n < |s| ==> !IsWhitespace(s[n])
  {
    if |s| > 0 && IsWhitespace(s[0]) then
      var n := 1 + LeadingWhitespace(s[1..]);
      assert forall i :: 1 <= i < n ==> s[..n][i] == s[1..][..n - 1][i - 1];
      n
    else 0
  }

  /** Length of the run of non-whitespace that starts `s` (what a greedy `\S+` takes). */
  function LeadingNonWhitespace(s: string): (n: nat)
    ensures n <= |s| && NoWhitespace(s[..n])
    ensures n < |s| ==> IsWhitespace(s[n])
  {
    if |s| > 0 && !IsWhitespace(s[0]) then
      var n := 1 + LeadingNonWhitespace(s[1..]);
      assert forall i :: 1 <= i < n ==> s[..n][i] == s[1..][..n - 1][i - 1];
      n
    else 0
  }

  predicate NoDashOrNewline(s: string) {
    forall i :: 0 <= i < |s| ==> s[i] != '-' && s[i] != '\n'
  }

  // ---------------------------------------------------------------------------
  // The four regular expressions, each applied to a trimmed line. A trimmed
  // line has no whitespace at either end, so the leading `^\s*` and trailing
  // `\s*$` of the source's expressions match the empty string. `.` does not
  // match a line feed.

  /** `^\s*# -+ ([^-\n]+) -+\s*$`: the captured tag name, before trimming. */
  function TagCapture(line: string): Option<string> {
    if |line| < 2 || line[..2] != "# " then None else TagAfterHash(line[2..])
  }

  /** The part of the tag expression after `# `: a run of dashes and a space. */
  function TagAfterHash(rest: string): Option<string> {
    var d1 := LeadingDashes(rest);
    if d1 == 0 || d1 == |rest| || rest[d1] != ' ' then None else TagName(rest[d1 + 1..])
  }

  /** The last part of the tag expression: the name, a space and a run of dashes. */
  function TagName(s: string): Option<string> {
    var d2 := TrailingDashes(s);
    if d2 == 0 || |s| < d2 + 2 || s[|s| - d2 - 1] != ' ' then None
    else
      var name := s[..|s| - d2 - 1];
      if NoDashOrNewline(name) then Some(name) else None
  }

  /** `^\s*#.*$`. */
  predicate IsComment(line: string) {
    |line| > 0 && line[0] == '#' && '\n' !in line
  }

  /** `^\s*Host\s+(.+?)\s*$`: the host name after `Host` and its whitespace. */
  function SectionCapture(line: string): Option<string> {
    if |line| < 4 || line[..4] != "Host" then None
    else
      var rest := line[4..];
      var w := LeadingWhitespace(rest);
      if w == 0 || w == |rest| || '\n' in rest[w..] then None
      else Some(rest[w..])
  }

  /** `^\s*(\S+)\s+(.+?)\s*$`: the first word and the rest after its whitespace. */
  function OptionCapture(line: string): Option<(string, string)> {
    var k := LeadingNonWhitespace(line);
    if k == 0 then None
    else
      var rest := line[k..];
      var w := LeadingWhitespace(rest);
      if w == 0 || w == |rest| || '\n' in rest[w..] then None
      else Some((line[..k], rest[w..]))
  }

  /** What one line of the file is, matched in the order of the source's loop
      body: tag banner, comment, `Host` section, `key value` option. */
  datatype LineKind =
    | TagLine(name: string)
    | CommentLine(text: string)
    | SectionLine(host: string)
    | OptionLine(key: string, value: string)
    | Unmatched

  function ClassifyTrimmed(line: string): (k: LineKind)
    requires IsTrimmed(line)
    ensures k.TagLine? ==> IsTrimmed(k.name)
    ensures k.CommentLine? ==> k.text == line && |line| > 0 && line[0] == '#'
    ensures k.SectionLine? ==> |k.host| > 0 && IsTrimmed(k.host) && NoNewline(k.host)
    ensures k.OptionLine? ==> && |k.key| > 0 && NoWhitespace(k.key)
                              && |k.value| > 0 && IsTrimmed(k.value) && NoNewline(k.value)
  {
    match TagCapture(line)
    case Some(name) => TagLine(Trim(name))
    case None =>
      if IsComment(line) then CommentLine(line)
      else
        match SectionCapture(line)
        case Some(host) =>
          assert host[|host| - 1] == line[|line| - 1];
          SectionLine(host)
        case None =>
          match OptionCapture(line)
          case Some(kv) =>
            assert kv.1[|kv.1| - 1] == line[|line| - 1];
            OptionLine(kv.0, kv.1)
          case None => Unmatched
  }

  /** Every line is trimmed before it is classified (config.rs line 33). */
  function Classify(raw: string): (k: LineKind)
    ensures k.CommentLine? ==> k.text == Trim(raw) && |k.text| > 0 && k.text[0] == '#'
    ensures k.SectionLine? ==> |k.host| > 0 && IsTrimmed(k.host) && NoNewline(k.host)
    ensures k.OptionLine? ==> |k.key| > 0 && NoWhitespace(k.key) && |k.value| > 0 && IsTrimmed(k.value)
  {
    ClassifyTrimmed(Trim(raw))
  }

  // ---------------------------------------------------------------------------
  // The hand-written matchers agree with the regular expressions: every line of
  // the shape an expression describes is captured as the expression captures
  // it, and every captured line has that shape.

  lemma LeadingDashesOf(d: string, t: string)
    requires AllDashes(d) && |t| > 0 && t[0] != '-'
    ensures LeadingDashes(d + t) == |d|
  {
    var s := d + t;
    assert s[|d|] == t[0];
    assert forall i :: 0 <= i < |d| ==> s[i] == d[i];
  }

  lemma TrailingDashesOf(t: string, d: string)
    requires AllDashes(d) && |t| > 0 && t[|t| - 1] != '-'
    ensures TrailingDashes(t + d) == |d|
  {
    var s := t + d;
    assert s[|t| - 1] == t[|t| - 1];
    assert forall i :: |t| <= i < |s| ==> s[i] == d[i - |t|];
  }

  lemma TagNameOf(name: string, d: string)
    requires |d| >= 1 && AllDashes(d) && |name| >= 1 && NoDashOrNewline(name)
    ensures TagName(name + " " + d) == Some(name)
  {
    var s := name + " " + d;
    TrailingDashesOf(name + " ", d);
    assert s[|s| - |d| - 1] == ' ';
    assert s[..|s| - |d| - 1] == name;
  }

  /** Every `# <dashes> <name> <dashes>` banner is a tag line naming `name`. */
  lemma TagCaptureComplete(d1: string, name: string, d2: string)
    requires |d1| >= 1 && AllDashes(d1) && |d2| >= 1 && AllDashes(d2)
    requires |name| >= 1 && NoDashOrNewline(name)
    ensures TagCapture("# " + d1 + " " + name + " " + d2) == Some(name)
  {
    var line := "# " + d1 + " " + name + " " + d2;
    var tail := name + " " + d2;
    var rest := d1 + ([' '] + tail);
    assert line == "# " + rest;
    assert line[2..] == rest;
    LeadingDashesOf(d1, [' '] + tail);
    assert rest[|d1|] == ' ';
    assert rest[|d1| + 1..] == tail by {
      assert rest[|d1|..] == [' '] + tail;
    }
    TagNameOf(name, d2);
  }

  /** A name captured by the last part comes from `<name> <dashes>`. */
  lemma TagNameSound(s: string) returns (d2: string)
    requires TagName(s).Some?
    ensures var name := TagName(s).value;
            && |d2| >= 1 && AllDashes(d2) && |name| >= 1 && NoDashOrNewline(name)
            && s == name + " " + d2
  {
    var b := TrailingDashes(s);
    var name := s[..|s| - b - 1];
    d2 := s[|s| - b..];
    assert s == name + " " + d2;
  }

  /** A name captured after `# ` comes from `<dashes> <name> <dashes>`. */
  lemma TagAfterHashSound(rest: string) returns (d1: string, d2: string)
    requires TagAfterHash(rest).Some?
    ensures var name := TagAfterHash(rest).value;
            && |d1| >= 1 && AllDashes(d1) && |d2| >= 1 && AllDashes(d2)
            && |name| >= 1 && NoDashOrNewline(name)
            && rest == d1 + " " + name + " " + d2
  {
    var a := LeadingDashes(rest);
    var s := rest[a + 1..];
    d2 := TagNameSound(s);
    d1 := rest[..a];
    assert rest == d1 + " " + s;
  }

  /** A captured tag comes from a line `# <dashes> <name> <dashes>`. */
  lemma TagCaptureSound(line: string) returns (d1: string, d2: string)
    requires TagCapture(line).Some?
    ensures var name := TagCapture(line).value;
            && |d1| >= 1 && AllDashes(d1) && |d2| >= 1 && AllDashes(d2)
            && |name| >= 1 && NoDashOrNewline(name)
            && line == "# " + d1 + " " + name + " " + d2
  {
    var rest := line[2..];
    assert TagCapture(line) == TagAfterHash(rest);
    d1, d2 := TagAfterHashSound(rest);
    var name := TagAfterHash(rest).value;
    calc {
      line;
      "# " + rest;
      "# " + (d1 + " " + name + " " + d2);
      "# " + d1 + " " + name + " " + d2;
    }
  }

  /** Every `Host <ws> <name>` line with a single-line name captures `name`. */
  lemma SectionCaptureComplete(w: string, host: string)
    requires |w| >= 1 && AllWhitespace(w)
    requires |host| >= 1 && !IsWhitespace(host[0]) && NoNewline(host)
    ensures SectionCapture("Host" + w + host) == Some(host)
  {
    var line := "Host" + w + host;
    var rest := line[4..];
    assert rest == w + host;
    assert rest[|w|] == host[0];
    assert LeadingWhitespace(rest) == |w|;
    assert rest[|w|..] == host;
  }

  /** A captured host name comes from a line `Host <ws> <name>`. */
  lemma SectionCaptureSound(line: string) returns (w: string)
    requires SectionCapture(line).Some?
    ensures |w| >= 1 && AllWhitespace(w)
    ensures line == "Host" + w + SectionCapture(line).value
  {
    var rest := line[4..];
    var n := LeadingWhitespace(rest);
    w := rest[..n];
    assert rest == w + rest[n..];
    assert line == line[..4] + rest;
  }

  /** Every `<word> <ws> <value>` line with a single-line value captures the pair. */
  lemma OptionCaptureComplete(key: string, w: string, value: string)
    requires |key| >= 1 && NoWhitespace(key)
    requires |w| >= 1 && AllWhitespace(w)
    requires |value| >= 1 && !IsWhitespace(value[0]) && NoNewline(value)
    ensures OptionCapture(key + w + value) == Some((key, value))
  {
    var line := key + w + value;
    assert line[|key|] == w[0];
    assert LeadingNonWhitespace(line) == |key|;
    var rest := line[|key|..];
    assert rest == w + value;
    assert rest[|w|] == value[0];
    assert LeadingWhitespace(rest) == |w|;
    assert line[..|key|] == key && rest[|w|..] == value;
  }

  /** A captured option comes from a line `<word> <ws> <value>`. */
  lemma OptionCaptureSound(line: string) returns (w: string)
    requires OptionCapture(line).Some?
    ensures var kv := OptionCapture(line).value;
            && |w| >= 1 && AllWhitespace(w) && NoWhitespace(kv.0)
            && line == kv.0 + w + kv.1
  {
    var k := LeadingNonWhitespace(line);
    var rest := line[k..];
    var n := LeadingWhitespace(rest);
    w := rest[..n];
    assert rest == w + rest[n..];
    assert line == line[..k] + rest;
  }

  // ---------------------------------------------------------------------------
  // Classification

  /** Whitespace around a line never changes how it is classified. */
  lemma ClassifyIgnoresPadding(a: string, line: string, b: string)
    requires AllWhitespace(a) && AllWhitespace(b)
    ensures Classify(a + line + b) == Classify(line)
  {
    TrimIgnoresPadding(a, line, b);
  }

  /** A trimmed line starting with `#` is a tag banner or a comment, never a
      section or an option: the comment test comes before the other two. */
  lemma CommentsComeFirst(raw: string)
    requires IsComment(Trim(raw))
    ensures Classify(raw).TagLine? || Classify(raw) == CommentLine(Trim(raw))
  {
  }

  /** A line that does not start with `#` is neither a tag banner nor a comment. */
  lemma NotHashLine(line: string)
    requires |line| > 0 && line[0] != '#'
    ensures TagCapture(line) == None && !IsComment(line)
  {
    if |line| >= 2 {
      assert line[..2][0] == line[0];
    }
  }

  lemma ClassifyTrimmedSection(line: string, host: string)
    requires IsTrimmed(line)
    ensures ClassifyTrimmed(line) == SectionLine(host) <==> SectionCapture(line) == Some(host)
  {
    if SectionCapture(line).Some? {
      assert line[..4][0] == line[0];
      NotHashLine(line);
    }
  }

  /** A line is a section header exactly when the `Host` expression captures a
      host name in it after trimming; a comment or tag can never be one. */
  lemma ClassifySection(raw: string, host: string)
    ensures Classify(raw) == SectionLine(host) <==> SectionCapture(Trim(raw)) == Some(host)
  {
    ClassifyTrimmedSection(Trim(raw), host);
  }

  /** `Host`, whitespace, and a single-line host name: a section for that host. */
  lemma HostLineIsSection(w: string, host: string)
    requires |w| >= 1 && AllWhitespace(w)
    requires |host| >= 1 && IsTrimmed(host) && NoNewline(host)
    ensures Classify("Host" + w + host) == SectionLine(host)
  {
    var line := "Host" + w + host;
    assert line[0] == 'H' && line[|line| - 1] == host[|host| - 1];
    TrimTrimmed(line);
    SectionCaptureComplete(w, host);
    ClassifySection(line, host);
  }

  /** The keyword is matched case-sensitively: `host`, whitespace and a value
      in lower case is an option named `host`, not a section. */
  lemma LowerCaseHostIsOption(w: string, value: string)
    requires |w| >= 1 && AllWhitespace(w)
    requires |value| >= 1 && IsTrimmed(value) && NoNewline(value)
    ensures Classify("host" + w + value) == OptionLine("host", value)
  {
    var line := "host" + w + value;
    assert line[0] == 'h' && line[|line| - 1] == value[|value| - 1];
    TrimTrimmed(line);
    NotHashLine(line);
    assert SectionCapture(line) == None by { assert line[..4][0] == 'h'; }
    OptionCaptureComplete("host", w, value);
  }

  // ---------------------------------------------------------------------------
  // The loop of `read_ssh_config`

  /** The loop's local variables: finished entries, the open section's host,
      and the option, comment and tag buffers. */
  datatype ScanState = ScanState(
    entries: seq<SshConfigEntry>,
    currentHost: Option<string>,
    options: seq<(string, string)>,
    comments: seq<string>,
    currentTag: Option<string>,
    previousTag: Option<string>)

  const Start := ScanState([], None, [], [], None, None)

  /** The assignment `previous_tag = current_tag` at the end of the loop body. */
  function SyncTag(st: ScanState): ScanState {
    st.(previousTag := st.currentTag)
  }

  /** The entry a section becomes when it is closed. */
  function Flush(st: ScanState, host: string): SshConfigEntry {
    SshConfigEntry(host, st.options, st.comments, st.previousTag)
  }

  /** One iteration of the loop, given the class of the trimmed line. A tag
      line `continue`s before the tag sync. A section line closes the open
      section, if any, and empties the buffers; the first section line closes
      nothing and keeps the buffers. */
  function Step(st: ScanState, kind: LineKind): (r: ScanState)
    ensures |st.entries| <= |r.entries| <= |st.entries| + 1 && r.entries[..|st.entries|] == st.entries
    ensures !kind.TagLine? ==> r.previousTag == r.currentTag
    ensures kind.TagLine? ==> r.previousTag == st.previousTag
    ensures !kind.SectionLine? ==> r.entries == st.entries && r.currentHost == st.currentHost
    ensures kind.SectionLine? ==> r.currentHost == Some(kind.host)
  {
    match kind
    case TagLine(name) => st.(currentTag := Some(name))
    case CommentLine(text) => SyncTag(st.(comments := st.comments + [text]))
    case SectionLine(host) =>
      var closed :=
        match st.currentHost
        case Some(open) => st.(entries := st.entries + [Flush(st, open)], options := [], comments := [])
        case None => st;
      SyncTag(closed.(currentHost := Some(host)))
    case OptionLine(key, value) => SyncTag(st.(options := st.options + [(key, value)]))
    case Unmatched => SyncTag(st)
  }

  /** The loop state after lines of the given classes. */
  function Scan(kinds: seq<LineKind>): (r: ScanState)
    ensures |r.entries| <= |kinds|
    ensures r.currentHost.None? ==> r.entries == []
    decreases |kinds|
  {
    if kinds == [] then Start else Step(Scan(kinds[..|kinds| - 1]), kinds[|kinds| - 1])
  }

  /** After the loop: the open section, if any, becomes the last entry. */
  function Finish(st: ScanState): (r: seq<SshConfigEntry>)
    ensures |st.entries| <= |r| && r[..|st.entries|] == st.entries
    ensures st.currentHost.None? ==> r == st.entries
    ensures st.currentHost.Some? ==> |r| == |st.entries| + 1 && r[|st.entries|].host == st.currentHost.value
  {
    match st.currentHost
    case Some(open) => st.entries + [Flush(st, open)]
    case None => st.entries
  }

  /** The class of every line of the file. */
  function Kinds(lines: seq<string>): (r: seq<LineKind>)
    ensures |r| == |lines| && forall i :: 0 <= i < |lines| ==> r[i] == Classify(lines[i])
  {
    seq(|lines|, i requires 0 <= i < |lines| => Classify(lines[i]))
  }

  // ---------------------------------------------------------------------------
  // Reference definitions, each reading one thing off the line classes

  predicate NoSection(kinds: seq<LineKind>) {
    forall i :: 0 <= i < |kinds| ==> !kinds[i].SectionLine?
  }

  /** The host names of the section lines, in file order. */
  function HostNames(kinds: seq<LineKind>): seq<string>
    decreases |kinds|
  {
    if kinds == [] then []
    else
      var earlier := HostNames(kinds[..|kinds| - 1]);
      match kinds[|kinds| - 1]
      case SectionLine(host) => earlier + [host]
      case _ => earlier
  }

  /** The options of the option lines, in file order. */
  function OptionsOf(kinds: seq<LineKind>): seq<(string, string)>
    decreases |kinds|
  {
    if kinds == [] then []
    else
      var earlier := OptionsOf(kinds[..|kinds| - 1]);
      match kinds[|kinds| - 1]
      case OptionLine(key, value) => earlier + [(key, value)]
      case _ => earlier
  }

  /** The comment lines, in file order. */
  function CommentsOf(kinds: seq<LineKind>): seq<string>
    decreases |kinds|
  {
    if kinds == [] then []
    else
      var earlier := CommentsOf(kinds[..|kinds| - 1]);
      match kinds[|kinds| - 1]
      case CommentLine(text) => earlier + [text]
      case _ => earlier
  }

  /** The name of the last tag banner. */
  function CurrentTag(kinds: seq<LineKind>): Option<string>
    decreases |kinds|
  {
    if kinds == [] then None
    else
      match kinds[|kinds| - 1]
      case TagLine(name) => Some(name)
      case _ => CurrentTag(kinds[..|kinds| - 1])
  }

  /** The tag in force at the last line that is not a tag banner: banners
      after it have not been seen by `previous_tag` yet. */
  function PreviousTag(kinds: seq<LineKind>): Option<string>
    decreases |kinds|
  {
    if kinds == [] then None
    else if kinds[|kinds| - 1].TagLine? then PreviousTag(kinds[..|kinds| - 1])
    else CurrentTag(kinds)
  }

  function HostsOf(entries: seq<SshConfigEntry>): seq<string> {
    seq(|entries|, i requires 0 <= i < |entries| => entries[i].host)
  }

  function HostList(host: Option<string>): seq<string> {
    match host
    case Some(h) => [h]
    case None => []
  }

  // ---------------------------------------------------------------------------
  // What the loop computes

  lemma DropLast(xs: seq<LineKind>, seg: seq<LineKind>)
    requires |seg| > 0
    ensures (xs + seg)[..|xs + seg| - 1] == xs + seg[..|seg| - 1]
    ensures (xs + seg)[|xs + seg| - 1] == seg[|seg| - 1]
  {
  }

  /** The loop's tag variables: `current_tag` names the last banner, and
      `previous_tag` lags behind it until the next line that is not a banner. */
  lemma {:induction false} ScanTags(kinds: seq<LineKind>)
    ensures Scan(kinds).currentTag == CurrentTag(kinds)
    ensures Scan(kinds).previousTag == PreviousTag(kinds)
    decreases |kinds|
  {
    if kinds != [] {
      ScanTags(kinds[..|kinds| - 1]);
    }
  }

  /** Every section line met so far is a finished entry or the open section, in order. */
  lemma {:induction false} ScanHosts(kinds: seq<LineKind>)
    ensures HostsOf(Scan(kinds).entries) + HostList(Scan(kinds).currentHost) == HostNames(kinds)
    ensures Scan(kinds).currentHost.None? ==> Scan(kinds).entries == []
    decreases |kinds|
  {
    if kinds != [] {
      var st := Scan(kinds[..|kinds| - 1]);
      ScanHosts(kinds[..|kinds| - 1]);
      match kinds[|kinds| - 1]
      case SectionLine(host) =>
        match st.currentHost {
          case Some(open) =>
            assert HostsOf(st.entries + [Flush(st, open)]) == HostsOf(st.entries) + [open];
          case None =>
        }
      case _ =>
    }
  }

  /** Lines without a section line only fill the buffers: options and comments
      are appended in order, tag banners touch only the tags. */
  lemma {:induction false} ScanWithoutSections(xs: seq<LineKind>, seg: seq<LineKind>)
    requires NoSection(seg)
    ensures Scan(xs + seg).entries == Scan(xs).entries
    ensures Scan(xs + seg).currentHost == Scan(xs).currentHost
    ensures Scan(xs + seg).options == Scan(xs).options + OptionsOf(seg)
    ensures Scan(xs + seg).comments == Scan(xs).comments + CommentsOf(seg)
    decreases |seg|
  {
    if seg == [] {
      assert xs + seg == xs;
    } else {
      DropLast(xs, seg);
      ScanWithoutSections(xs, seg[..|seg| - 1]);
    }
  }

  /** A section line closes the open section, if there is one, and opens its own. */
  lemma ScanOpensSection(kinds: seq<LineKind>, host: string)
    ensures var before, after := Scan(kinds), Scan(kinds + [SectionLine(host)]);
      && after.currentHost == Some(host)
      && after.entries == Finish(before)
      && (before.currentHost.Some? ==> after.options == [] && after.comments == [])
      && (before.currentHost.None? ==> after.options == before.options && after.comments == before.comments)
  {
    assert (kinds + [SectionLine(host)])[..|kinds|] == kinds;
  }

  lemma {:induction false} HostNamesEmpty(kinds: seq<LineKind>)
    ensures HostNames(kinds) == [] <==> NoSection(kinds)
    decreases |kinds|
  {
    if kinds != [] {
      var p := kinds[..|kinds| - 1];
      HostNamesEmpty(p);
      assert NoSection(kinds) <==> NoSection(p) && !kinds[|kinds| - 1].SectionLine? by {
        assert forall i :: 0 <= i < |p| ==> kinds[i] == p[i];
      }
    }
  }

  /** `read_ssh_config`: one entry per section line, named after it, in file order. */
  function ReadSshConfig(lines: seq<string>): (r: seq<SshConfigEntry>)
    ensures HostsOf(r) == HostNames(Kinds(lines))
    ensures |r| == |HostNames(Kinds(lines))|
    ensures r == [] <==> NoSection(Kinds(lines))
  {
    var kinds := Kinds(lines);
    FinishHosts(kinds);
    Finish(Scan(kinds))
  }

  /** The entries the loop leaves are the section lines, in order. */
  lemma FinishHosts(kinds: seq<LineKind>)
    ensures HostsOf(Finish(Scan(kinds))) == HostNames(kinds)
    ensures |Finish(Scan(kinds))| == |HostNames(kinds)|
    ensures Finish(Scan(kinds)) == [] <==> NoSection(kinds)
  {
    ScanHosts(kinds);
    HostNamesEmpty(kinds);
    var st := Scan(kinds);
    if st.currentHost.Some? {
      assert HostsOf(st.entries + [Flush(st, st.currentHost.value)]) == HostsOf(st.entries) + [st.currentHost.value];
    }
  }

  lemma FinishOpen(st: ScanState)
    requires st.currentHost.Some?
    ensures Finish(st) == st.entries + [Flush(st, st.currentHost.value)]
  {
  }

  lemma FirstSectionState(pre: seq<LineKind>, host: string, seg: seq<LineKind>)
    requires NoSection(pre) && NoSection(seg)
    ensures var st := Scan(pre + [SectionLine(host)] + seg);
      && st.currentHost == Some(host) && st.entries == []
      && st.options == OptionsOf(pre) + OptionsOf(seg)
      && st.comments == CommentsOf(pre) + CommentsOf(seg)
  {
    assert [] + pre == pre;
    ScanWithoutSections([], pre);
    var before := Scan(pre);
    assert before.currentHost == None && before.entries == [];
    assert before.options == OptionsOf(pre) && before.comments == CommentsOf(pre);
    ScanOpensSection(pre, host);
    var front := pre + [SectionLine(host)];
    var opening := Scan(front);
    assert opening.currentHost == Some(host) && opening.entries == [];
    assert opening.options == OptionsOf(pre) && opening.comments == CommentsOf(pre);
    ScanWithoutSections(front, seg);
  }

  /** The first section gets everything before it as well as everything after
      it up to the next section line, and the tag in force at its end. */
  lemma FirstEntry(pre: seq<LineKind>, host: string, seg: seq<LineKind>)
    requires NoSection(pre) && NoSection(seg)
    ensures Finish(Scan(pre + [SectionLine(host)] + seg))
            == [SshConfigEntry(host, OptionsOf(pre) + OptionsOf(seg), CommentsOf(pre) + CommentsOf(seg),
                               PreviousTag(pre + [SectionLine(host)] + seg))]
  {
    var kinds := pre + [SectionLine(host)] + seg;
    FirstSectionState(pre, host, seg);
    ScanTags(kinds);
    FinishOpen(Scan(kinds));
  }

  /** Every later section line closes the entries read so far, unchanged, and
      opens an entry holding only what follows it up to the next section line. */
  lemma NextEntry(kinds: seq<LineKind>, host: string, seg: seq<LineKind>)
    requires !NoSection(kinds) && NoSection(seg)
    ensures Finish(Scan(kinds + [SectionLine(host)] + seg))
            == Finish(Scan(kinds))
               + [SshConfigEntry(host, OptionsOf(seg), CommentsOf(seg),
                                 PreviousTag(kinds + [SectionLine(host)] + seg))]
  {
    var front := kinds + [SectionLine(host)];
    HostNamesEmpty(kinds);
    ScanHosts(kinds);
    assert Scan(kinds).currentHost.Some?;
    ScanOpensSection(kinds, host);
    ScanWithoutSections(front, seg);
    ScanTags(front + seg);
    var st := Scan(front + seg);
    assert st.currentHost == Some(host);
    assert st.entries == Finish(Scan(kinds));
    assert st.options == OptionsOf(seg);
    assert st.comments == CommentsOf(seg);
  }

  /** All options of the given entries, entry after entry. */
  function AllOptions(entries: seq<SshConfigEntry>): seq<(string, string)>
    decreases |entries|
  {
    if entries == [] then [] else AllOptions(entries[..|entries| - 1]) + entries[|entries| - 1].options
  }

  /** All comments of the given entries, entry after entry. */
  function AllComments(entries: seq<SshConfigEntry>): seq<string>
    decreases |entries|
  {
    if entries == [] then [] else AllComments(entries[..|entries| - 1]) + entries[|entries| - 1].comments
  }

  lemma {:induction false} ScanKeepsEverything(kinds: seq<LineKind>)
    ensures AllOptions(Scan(kinds).entries) + Scan(kinds).options == OptionsOf(kinds)
    ensures AllComments(Scan(kinds).entries) + Scan(kinds).comments == CommentsOf(kinds)
    decreases |kinds|
  {
    if kinds != [] {
      var st := Scan(kinds[..|kinds| - 1]);
      ScanKeepsEverything(kinds[..|kinds| - 1]);
      match kinds[|kinds| - 1]
      case SectionLine(host) =>
        match st.currentHost {
          case Some(open) =>
            var es := st.entries + [Flush(st, open)];
            assert es[..|es| - 1] == st.entries;
          case None =>
        }
      case _ =>
    }
  }

  /** No option or comment is lost or reordered: once the file has a section,
      the entries' options and comments, read entry after entry, are exactly
      the file's option and comment lines in file order. */
  lemma NothingLost(lines: seq<string>)
    requires !NoSection(Kinds(lines))
    ensures AllOptions(ReadSshConfig(lines)) == OptionsOf(Kinds(lines))
    ensures AllComments(ReadSshConfig(lines)) == CommentsOf(Kinds(lines))
  {
    var kinds := Kinds(lines);
    HostNamesEmpty(kinds);
    ScanHosts(kinds);
    ScanKeepsEverything(kinds);
    var st := Scan(kinds);
    assert st.currentHost.Some?;
    FinishOpen(st);
    var es := Finish(st);
    assert es[..|es| - 1] == st.entries;
  }

  /** A tag banner sets the current tag to its trimmed name and changes nothing
      else: it is not recorded as a comment or an option, and `previous_tag`
      is not synchronised on it. */
  lemma TagLineOnlySetsTag(st: ScanState, raw: string)
    requires TagCapture(Trim(raw)).Some?
    ensures Step(st, Classify(raw)) == st.(currentTag := Some(Trim(TagCapture(Trim(raw)).value)))
  {
  }
}
