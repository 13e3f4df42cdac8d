/**
 * `parse_whatsapp_text_file_bytes` (src/processors.py:49-62): counts the
 * message lines of one chat transcript and the distinct senders named on them.
 *
 * The input is the transcript already decoded and split into lines; lines
 * produced by `splitlines` never hold a line break, so the regex `.` is
 * modelled as "any character".
 */
module Transcript {
  import opened Wrappers
  import opened Text

  /** The line test of src/processors.py:57: both a hyphen and a colon. */
  predicate IsMessage(line: string) {
    '-' in line && ':' in line
  }

  // ---------------------------------------------------------------------
  // The regex `-\s*(.+?):` searched with `re.search` (src/processors.py:54, 59)
  // ---------------------------------------------------------------------

  /** Length of the whitespace run starting at `k` (what the greedy `\s*` takes first). */
  function SpaceRun(line: string, k: nat): (n: nat)
    requires k <= |line|
    ensures k + n <= |line|
    ensures forall i :: k <= i < k + n ==> IsSpace(line[i])
    ensures k + n == |line| || !IsSpace(line[k + n])
    decreases |line| - k
  {
    if k < |line| && IsSpace(line[k]) then 1 + SpaceRun(line, k + 1) else 0
  }

  /** Index of the first ':' at or after `k`. */
  function ColonFrom(line: string, k: nat): (r: Option<nat>)
    requires k <= |line|
    ensures r.Some? ==> k <= r.value < |line| && line[r.value] == ':'
    ensures r.Some? ==> forall i :: k <= i < r.value ==> line[i] != ':'
    ensures r.None? ==> forall i :: k <= i < |line| ==> line[i] != ':'
    decreases |line| - k
  {
    if k == |line| then None
    else if line[k] == ':' then Some(k)
    else ColonFrom(line, k + 1)
  }

  /** `(.+?):` tried at `start`: one character at least, then as few as reach a ':'. */
  function LazyGroup(line: string, start: nat): Option<string>
    requires start <= |line|
  {
    if start == |line| then None
    else
      match ColonFrom(line, start + 1)
      case Some(j) => Some(line[start..j])
      case None => None
  }

  /**
   * `\s*(.+?):` after the hyphen at `h`, with `\s*` taking `w` characters and
   * backtracking to fewer when the group fails.
   */
  function GroupAfterHyphen(line: string, h: nat, w: nat): Option<string>
    requires h + 1 + w <= |line|
    decreases w
  {
    match LazyGroup(line, h + 1 + w)
    case Some(g) => Some(g)
    case None => if w == 0 then None else GroupAfterHyphen(line, h, w - 1)
  }

  /** The whole pattern anchored at position `h`. */
  function MatchAt(line: string, h: nat): Option<string>
    requires h < |line|
  {
    if line[h] == '-' then GroupAfterHyphen(line, h, SpaceRun(line, h + 1)) else None
  }

  /** `re.search`: the match at the leftmost position where the pattern matches. */
  function Search(line: string, k: nat): Option<string>
    requires k <= |line|
    decreases |line| - k
  {
    if k == |line| then None
    else
      match MatchAt(line, k)
      case Some(g) => Some(g)
      case None => Search(line, k + 1)
  }

  /** `m.group(1).strip()` when `sender_pattern.search(L)` matches. */
  function Sender(line: string): Option<string> {
    match Search(line, 0)
    case Some(g) => Some(Strip(g))
    case None => None
  }

  /** A ':' at least two places after a '-' somewhere in the line. */
  predicate HasHyphenColon(line: string, k: nat) {
    exists i, j :: k <= i && i + 2 <= j < |line| && line[i] == '-' && line[j] == ':'
  }

  lemma {:induction false} GroupAfterHyphenSome(line: string, h: nat, w: nat)
    requires h + 1 + w <= |line|
    requires forall i :: h + 1 <= i < h + 1 + w ==> line[i] != ':'
    ensures GroupAfterHyphen(line, h, w).Some? <==> exists j :: h + 2 <= j < |line| && line[j] == ':'
    decreases w
  {
    if h + 1 + w < |line| && ColonFrom(line, h + 2 + w).Some? {
      assert line[ColonFrom(line, h + 2 + w).value] == ':';
    } else if w > 0 {
      GroupAfterHyphenSome(line, h, w - 1);
    }
  }

  lemma {:induction false} SearchSome(line: string, k: nat)
    requires k <= |line|
    ensures Search(line, k).Some? <==> HasHyphenColon(line, k)
    decreases |line| - k
  {
    if k < |line| {
      SearchSome(line, k + 1);
      if line[k] == '-' {
        var w := SpaceRun(line, k + 1);
        GroupAfterHyphenSome(line, k, w);
        if MatchAt(line, k).Some? {
          var j :| k + 2 <= j < |line| && line[j] == ':';
          assert line[k] == '-';
        }
      }
      if HasHyphenColon(line, k) && !HasHyphenColon(line, k + 1) {
        var i, j :| k <= i && i + 2 <= j < |line| && line[i] == '-' && line[j] == ':';
        assert i == k;
        GroupAfterHyphenSome(line, k, SpaceRun(line, k + 1));
      }
    }
  }

  /**
   * The pattern finds a sender exactly when some ':' stands at least two
   * places after some '-'; in particular only message lines have one.
   */
  lemma SenderIff(line: string)
    ensures Sender(line).Some? <==> HasHyphenColon(line, 0)
    ensures Sender(line).Some? ==> IsMessage(line)
  {
    SearchSome(line, 0);
    if HasHyphenColon(line, 0) {
      var i, j :| 0 <= i && i + 2 <= j < |line| && line[i] == '-' && line[j] == ':';
      assert line[i] in line && line[j] in line;
    }
  }

  /** Positions where the pattern does not match are skipped by the search. */
  lemma {:induction false} SearchSkips(line: string, k: nat, m: nat)
    requires k <= m <= |line|
    requires forall i :: k <= i < m ==> MatchAt(line, i).None?
    ensures Search(line, k) == Search(line, m)
    decreases m - k
  {
    if k < m {
      SearchSkips(line, k + 1, m);
    }
  }

  /** A typical exported line: the sender sits between " - " and the next ':'. */
  lemma SenderOfExportLine()
    ensures Sender("12/01/24, 10:00 - Alice: hi") == Some("Alice")
  {
    var line := "12/01/24, 10:00 - Alice: hi";
    forall k | 0 <= k < 16
      ensures MatchAt(line, k).None?
    {
      assert line[k] != '-';
    }
    SearchSkips(line, 0, 16);
    AliceAfterHyphen(line);
    StripOfBare("Alice");
  }

  lemma AliceAfterHyphen(line: string)
    requires line == "12/01/24, 10:00 - Alice: hi"
    ensures MatchAt(line, 16) == Some("Alice")
  {
    assert line[16] == '-' && line[17] == ' ' && line[18] == 'A';
    assert SpaceRun(line, 18) == 0;
    assert SpaceRun(line, 17) == 1;
    assert line[19..23] == "lice" && line[23] == ':';
    assert ColonFrom(line, 23) == Some(23);
    assert ColonFrom(line, 19) == Some(23);
    assert line[18..23] == "Alice";
  }

  /** A colon right after the hyphen's space: `\s*` backtracks and the sender is empty. */
  lemma SenderAfterBacktracking()
    ensures Sender("x - :y") == Some("")
  {
    var line := "x - :y";
    assert MatchAt(line, 0) == None;
    assert SpaceRun(line, 3) == 1;
    assert LazyGroup(line, 4) == None;
    assert ColonFrom(line, 4) == Some(4);
    assert line[3..4] == " ";
    assert LazyGroup(line, 3) == Some(" ");
    assert MatchAt(line, 2) == Some(" ");
    assert Search(line, 0) == Some(" ");
    assert StripLeading(" ") == [];
  }

  // ---------------------------------------------------------------------
  // The counting loop (src/processors.py:51-62) and its specification
  // ---------------------------------------------------------------------

  /** `[L.strip() for L in text.splitlines() if L.strip()]`. */
  function Kept(lines: seq<string>): seq<string> {
    if lines == [] then []
    else
      var s := Strip(lines[|lines| - 1]);
      Kept(lines[..|lines| - 1]) + (if s != [] then [s] else [])
  }

  /** Every kept line is non-blank and stripped, and no more lines are kept than were read. */
  lemma {:induction false} KeptLines(lines: seq<string>)
    ensures |Kept(lines)| <= |lines|
    ensures forall i :: 0 <= i < |Kept(lines)| ==> Kept(lines)[i] != [] && Bare(Kept(lines)[i])
    decreases |lines|
  {
    if lines != [] {
      var init := lines[..|lines| - 1];
      KeptLines(init);
      StripBare(lines[|lines| - 1]);
    }
  }

  /** How many of the kept lines are messages. */
  function MessageCount(kept: seq<string>): nat {
    if kept == [] then 0
    else MessageCount(kept[..|kept| - 1]) + (if IsMessage(kept[|kept| - 1]) then 1 else 0)
  }

  /** The sender a kept line contributes: none unless it is a message line and the pattern matches. */
  function LineSenders(line: string): set<string> {
    if IsMessage(line) && Sender(line).Some? then {Sender(line).value} else {}
  }

  /** The union of `f(line)` over the lines. */
  function UnionOver(lines: seq<string>, f: string -> set<string>): set<string> {
    if lines == [] then {}
    else UnionOver(lines[..|lines| - 1], f) + f(lines[|lines| - 1])
  }

  /** The senders found on the message lines. */
  function Senders(kept: seq<string>): set<string> {
    UnionOver(kept, LineSenders)
  }

  /** An element of the union comes from some line, and every line contributes. */
  lemma {:induction false} UnionOverExactly(lines: seq<string>, f: string -> set<string>, x: string)
    ensures x in UnionOver(lines, f) <==> exists i :: 0 <= i < |lines| && x in f(lines[i])
    decreases |lines|
  {
    if lines != [] {
      var n := |lines| - 1;
      var init := lines[..n];
      UnionOverExactly(init, f, x);
      if x in UnionOver(lines, f) {
        if x in UnionOver(init, f) {
          var i :| 0 <= i < |init| && x in f(init[i]);
          assert lines[i] == init[i];
        } else {
          assert x in f(lines[n]);
        }
      }
      if exists i :: 0 <= i < |lines| && x in f(lines[i]) {
        var i :| 0 <= i < |lines| && x in f(lines[i]);
        if i < n {
          assert init[i] == lines[i];
        }
      }
    }
  }

  lemma CountsAppend(kept: seq<string>, line: string)
    ensures MessageCount(kept + [line]) == MessageCount(kept) + (if IsMessage(line) then 1 else 0)
    ensures Senders(kept + [line]) == Senders(kept) + LineSenders(line)
  {
    assert (kept + [line])[..|kept|] == kept;
  }

  /**
   * `parse_whatsapp_text_file_bytes` on a decoded transcript: the comprehension
   * of src/processors.py:51, then the counting loop.
   */
  method ParseTranscript(lines: seq<string>) returns (totalMsgs: nat, uniqueSenders: nat)
    ensures totalMsgs == MessageCount(Kept(lines))
    ensures uniqueSenders == |Senders(Kept(lines))|
  {
    totalMsgs, uniqueSenders := CountMessages(Kept(lines));
  }

  /**
   * The loop of src/processors.py:52-62 over the kept lines: `totalMsgs`
   * counts the message lines and `uniqueSenders` is the size of the set of
   * senders they name.
   */
  method CountMessages(kept: seq<string>) returns (totalMsgs: nat, uniqueSenders: nat)
    ensures totalMsgs == MessageCount(kept)
    ensures uniqueSenders == |Senders(kept)|
  {
    totalMsgs := 0;
    var senders: set<string> := {};
    for i := 0 to |kept|
      invariant totalMsgs == MessageCount(kept[..i])
      invariant senders == Senders(kept[..i])
    {
      assert kept[..i + 1] == kept[..i] + [kept[i]];
      CountsAppend(kept[..i], kept[i]);
      var line := kept[i];
      if IsMessage(line) {
        totalMsgs := totalMsgs + 1;
        var m := Sender(line);
        if m.Some? {
          senders := senders + {m.value};
        }
      }
    }
    assert kept[..|kept|] == kept;
    uniqueSenders := |senders|;
  }

  /** Each message line adds at most one sender, so there are never more senders than messages. */
  lemma {:induction false} SendersAtMostMessages(kept: seq<string>)
    ensures |Senders(kept)| <= MessageCount(kept)
    decreases |kept|
  {
    if kept != [] {
      SendersAtMostMessages(kept[..|kept| - 1]);
    }
  }

  /** A sender is counted iff some message line names it. */
  lemma SendersExactly(kept: seq<string>, s: string)
    ensures s in Senders(kept) <==>
      exists i :: 0 <= i < |kept| && IsMessage(kept[i]) && Sender(kept[i]) == Some(s)
  {
    UnionOverExactly(kept, LineSenders, s);
  }

  /** A further line from a sender already seen adds a message and no sender. */
  lemma RepeatedSender(kept: seq<string>, line: string)
    requires IsMessage(line) && Sender(line).Some? && Sender(line).value in Senders(kept)
    ensures MessageCount(kept + [line]) == MessageCount(kept) + 1
    ensures Senders(kept + [line]) == Senders(kept)
  {
    CountsAppend(kept, line);
  }

  /** A line without both markers changes neither count. */
  lemma NonMessageIgnored(kept: seq<string>, line: string)
    requires !IsMessage(line)
    ensures MessageCount(kept + [line]) == MessageCount(kept)
    ensures Senders(kept + [line]) == Senders(kept)
  {
    CountsAppend(kept, line);
  }

  /** '-' and ':' are not whitespace, so stripping never changes whether a line is a message. */
  lemma StripKeepsMarkers(line: string)
    ensures IsMessage(Strip(line)) <==> IsMessage(line)
  {
    StripLeadingKeeps(line, '-');
    StripLeadingKeeps(line, ':');
    StripTrailingKeeps(StripLeading(line), '-');
    StripTrailingKeeps(StripLeading(line), ':');
  }

  lemma StripLeadingKeeps(s: string, c: char)
    requires !IsSpace(c)
    ensures c in StripLeading(s) <==> c in s
  {
    var r := StripLeading(s);
    var off := |s| - |r|;
    forall k | 0 <= k < off
      ensures s[k] != c
    {
      assert s[..off][k] == s[k];
    }
    if c in s {
      var i :| 0 <= i < |s| && s[i] == c;
      assert r[i - off] == c;
    }
  }

  lemma StripTrailingKeeps(s: string, c: char)
    requires !IsSpace(c)
    ensures c in StripTrailing(s) <==> c in s
  {
    var r := StripTrailing(s);
    forall k | |r| <= k < |s|
      ensures s[k] != c
    {
      assert s[|r|..][k - |r|] == s[k];
    }
    if c in s {
      var i :| 0 <= i < |s| && s[i] == c;
      assert r[i] == c;
    }
  }

  /** Messages counted over the raw lines, without stripping or dropping blanks. */
  function RawMessageCount(lines: seq<string>): nat {
    if lines == [] then 0
    else RawMessageCount(lines[..|lines| - 1]) + (if IsMessage(lines[|lines| - 1]) then 1 else 0)
  }

  /**
   * `total_msgs` is the number of input lines holding both a '-' and a ':':
   * stripping and dropping blank lines never change it.
   */
  lemma {:induction false} MessageCountIsRaw(lines: seq<string>)
    ensures MessageCount(Kept(lines)) == RawMessageCount(lines)
    decreases |lines|
  {
    if lines != [] {
      var init := lines[..|lines| - 1];
      var last := lines[|lines| - 1];
      MessageCountIsRaw(init);
      StripKeepsMarkers(last);
      var s := Strip(last);
      if s != [] {
        assert Kept(lines) == Kept(init) + [s];
        assert Kept(lines)[..|Kept(lines)| - 1] == Kept(init);
      } else {
        assert Kept(lines) == Kept(init);
      }
    }
  }

  /** A transcript with no non-blank line reports no messages and no senders. */
  lemma {:induction false} BlankTranscript(lines: seq<string>)
    requires forall i :: 0 <= i < |lines| ==> AllSpace(lines[i])
    ensures Kept(lines) == []
    ensures MessageCount(Kept(lines)) == 0 && Senders(Kept(lines)) == {}
    decreases |lines|
  {
    if lines != [] {
      var last := lines[|lines| - 1];
      assert StripLeading(last) == [];
      BlankTranscript(lines[..|lines| - 1]);
    }
  }
}
