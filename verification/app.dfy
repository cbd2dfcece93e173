/** The browser's mode of ssh-config/src/app.rs: normal browsing, the help
    overlay, or an incremental search with its query, cursor and matches. */
module App {
  import opened Common

  datatype AppMode =
    | Normal
    | Help
    | Search(query: string, cursorPosition: nat, matches: seq<nat>, currentMatch: Option<nat>)

  /** Number of bytes `c` takes in UTF-8. */
  function Utf8Width(c: char): nat {
    var n := c as int;
    if n < 0x80 then 1 else if n < 0x800 then 2 else if n < 0x1_0000 then 3 else 4
  }

  /** Rust's `String::len`: the UTF-8 byte length, not the character count. */
  function Utf8Len(s: string): nat {
    if s == [] then 0 else Utf8Len(s[..|s| - 1]) + Utf8Width(s[|s| - 1])
  }

  predicate IsAscii(s: string) {
    forall i :: 0 <= i < |s| ==> s[i] as int < 0x80
  }

  /** The byte length lies between the character count and four times it, and
      equals the character count exactly for ASCII text. */
  lemma {:induction false} Utf8LenBounds(s: string)
    ensures |s| <= Utf8Len(s) <= 4 * |s|
    ensures Utf8Len(s) == |s| <==> IsAscii(s)
    decreases |s|
  {
    if s != [] {
      var p := s[..|s| - 1];
      Utf8LenBounds(p);
      assert IsAscii(s) ==> IsAscii(p);
      if IsAscii(p) && s[|s| - 1] as int < 0x80 {
        assert forall i :: 0 <= i < |s| ==> (i < |p| ==> s[i] == p[i]);
      }
    }
  }

  /** `is_search`. */
  function IsSearch(m: AppMode): (r: bool)
    ensures r <==> m.Search?
  {
    match m
    case Search(_, _, _, _) => true
    case _ => false
  }

  /** `get_search_query`: the query in search mode, nothing otherwise. */
  function GetSearchQuery(m: AppMode): (r: Option<string>)
    ensures r.Some? <==> IsSearch(m)
    ensures m.Search? ==> r == Some(m.query)
  {
    match m
    case Search(query, _, _, _) => Some(query)
    case _ => None
  }

  /** `update_search`: in search mode, replaces the query, puts the cursor at
      its end (a byte offset), installs the new matches and forgets the
      current match; in any other mode nothing happens. */
  function UpdateSearch(m: AppMode, newQuery: string, matches: seq<nat>): (r: AppMode)
    ensures IsSearch(r) == IsSearch(m)
    ensures !m.Search? ==> r == m
    ensures m.Search? ==> && r.query == newQuery && r.cursorPosition == Utf8Len(newQuery)
                          && r.matches == matches && r.currentMatch == None
  {
    match m
    case Search(_, _, _, _) => Search(newQuery, Utf8Len(newQuery), matches, None)
    case _ => m
  }

  /** After an update in search mode the query reads back as the new query. */
  lemma UpdateSearchThenQuery(m: AppMode, newQuery: string, matches: seq<nat>)
    ensures GetSearchQuery(UpdateSearch(m, newQuery, matches))
            == if m.Search? then Some(newQuery) else None
  {
  }

  /** Updating twice with the same arguments is the same as updating once. */
  lemma UpdateSearchIdempotent(m: AppMode, newQuery: string, matches: seq<nat>)
    ensures UpdateSearch(UpdateSearch(m, newQuery, matches), newQuery, matches)
            == UpdateSearch(m, newQuery, matches)
  {
  }

  /** For an ASCII query the cursor sits after its last character. */
  lemma UpdateSearchAsciiCursor(m: AppMode, newQuery: string, matches: seq<nat>)
    requires m.Search? && IsAscii(newQuery)
    ensures UpdateSearch(m, newQuery, matches).cursorPosition == |newQuery|
  {
    Utf8LenBounds(newQuery);
  }
}
