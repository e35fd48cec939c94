/**
 * The process locator of run.js: the filter on listing lines (filterPs) and
 * the extraction of process identifiers from the text that the process
 * listing command prints (getPIDs).
 */
module Locator {
  import opened Basics
  import opened JsString

  /** What running the listing command gave: its standard output as text,
      or the failure it raised. */
  datatype Listing = Listed(stdout: string) | ListingFailed(message: string)

  // ---------------------------------------------------------------------
  // filterPs

  /** Does the line mention the filter, ignoring case? The empty filter
      passes every line, and a filter longer than the line passes none. */
  predicate FilterPs(line: string, filter: string): (b: bool)
    ensures filter == [] ==> b
    ensures b ==> |filter| <= |line|
  {
    Includes(ToLowerCase(line), ToLowerCase(filter))
  }

  /** A line passes exactly when the lowercased filter occurs somewhere in
      the lowercased line. */
  lemma {:induction false} FilterPsIff(line: string, filter: string)
    ensures FilterPs(line, filter) <==> exists i :: OccursAt(ToLowerCase(line), ToLowerCase(filter), i)
  {
    IncludesIff(ToLowerCase(line), ToLowerCase(filter));
  }

  /** The empty filter lets every line through. */
  lemma {:induction false} FilterPsEmptyFilter(line: string)
    ensures FilterPs(line, "")
  {
    IncludesIff(ToLowerCase(line), "");
    assert OccursAt(ToLowerCase(line), "", 0);
  }

  /** Only the lowercased forms of the line and the filter matter. */
  lemma {:induction false} FilterPsIgnoresCase(line: string, filter: string)
    ensures FilterPs(ToLowerCase(line), filter) == FilterPs(line, filter)
    ensures FilterPs(line, ToLowerCase(filter)) == FilterPs(line, filter)
  {
    ToLowerCaseIdempotent(line);
    ToLowerCaseIdempotent(filter);
  }

  /** A line passes only if it holds, up to case, every character of the
      filter; a line lacking one of them is dropped. */
  lemma {:induction false} FilterPsNeedsChars(line: string, filter: string)
    ensures FilterPs(line, filter) ==>
      forall k :: 0 <= k < |filter| ==> ToLowerCase(filter)[k] in ToLowerCase(line)
  {
    var s, t := ToLowerCase(line), ToLowerCase(filter);
    IncludesIff(s, t);
    if FilterPs(line, filter) {
      var i :| OccursAt(s, t, i);
      forall k | 0 <= k < |t|
        ensures t[k] in s
      {
        assert s[i..i + |t|][k] == s[i + k];
      }
    }
  }

  // ---------------------------------------------------------------------
  // One line of the listing

  /** The identifier one listing line contributes: none unless the line
      passes the filter, is not blank once trimmed, and the first
      white-space-delimited token of the trimmed line parses as an
      integer. */
  function LinePid(line: string, filter: string): (r: Option<int>)
    ensures r.Some? ==> FilterPs(line, filter) && !IsBlank(line)
  {
    TrimEmptyIff(line);
    if !FilterPs(line, filter) then None
    else
      var t := Trim(line);
      if t == [] then None
      else
        var parts := SplitWhiteSpace(t);
        if |parts| >= 1 then ParseInt(parts[0]) else None
  }

  /** A line that fails the filter or is blank contributes nothing; any
      other line contributes the parseInt value of the first token of the
      trimmed line, which is nothing when that token is NaN. */
  lemma {:induction false} LinePidIff(line: string, filter: string)
    ensures !FilterPs(line, filter) || IsBlank(line) ==> LinePid(line, filter) == None
    ensures FilterPs(line, filter) && !IsBlank(line) ==>
      LinePid(line, filter) == ParseInt(FirstToken(Trim(line)))
  {
    TrimEmptyIff(line);
  }

  /** Removing trailing white space never cuts into text that ends with a
      character that is not white space. */
  lemma {:induction false} TrimEndKeeps(x: string, y: string)
    requires x != [] && !IsWhiteSpace(x[|x| - 1])
    ensures |x| <= |TrimEnd(x + y)|
  {
    var s := x + y;
    var r := TrimEnd(s);
    assert s[|x| - 1] == x[|x| - 1];
    assert forall j :: |r| <= j < |s| ==> s[|r|..][j - |r|] == s[j];
  }

  /** The first token of a token followed by white space and anything else
      is that token, also once trailing white space is removed. */
  lemma {:induction false} FirstTokenOfTrimEnd(tok: string, tail: string)
    requires tok != []
    requires forall k :: 0 <= k < |tok| ==> !IsWhiteSpace(tok[k])
    requires tail == [] || IsWhiteSpace(tail[0])
    ensures FirstToken(TrimEnd(tok + tail)) == tok
  {
    var s := tok + tail;
    var t := TrimEnd(s);
    TrimEndKeeps(tok, tail);
    assert t[..|tok|] == tok by {
      assert forall k :: 0 <= k < |tok| ==> t[k] == s[k] == tok[k];
    }
    assert |tok| < |t| ==> t[|tok|] == tail[0];
    FirstTokenUnique(t, tok);
  }

  /** The first token of "<white space><token><white space><rest>", once
      trimmed, is the token. */
  lemma {:induction false} RowToken(lead: string, tok: string, tail: string)
    requires IsBlank(lead)
    requires tok != [] && forall k :: 0 <= k < |tok| ==> !IsWhiteSpace(tok[k])
    requires tail == [] || IsWhiteSpace(tail[0])
    ensures !IsBlank(lead + tok + tail)
    ensures FirstToken(Trim(lead + tok + tail)) == tok
  {
    var line := lead + tok + tail;
    assert line == lead + (tok + tail);
    TrimStartBlankPrefix(lead, tok + tail);
    assert Trim(line) == TrimEnd(tok + tail);
    FirstTokenOfTrimEnd(tok, tail);
    assert line[|lead|] == tok[0];
  }

  /** A listing row of the shape "<white space><pid><white space><rest>"
      that passes the filter contributes exactly that pid; this is the row
      format of the listing command. */
  lemma {:induction false} RowPid(lead: string, pid: int, tail: string, filter: string)
    requires IsBlank(lead)
    requires tail == [] || IsWhiteSpace(tail[0])
    requires FilterPs(lead + NumberToString(pid) + tail, filter)
    ensures LinePid(lead + NumberToString(pid) + tail, filter) == Some(pid)
  {
    var n := NumberToString(pid);
    NumberToStringIsToken(pid);
    RowToken(lead, n, tail);
    LinePidIff(lead + n + tail, filter);
    ParseIntOfNumberToString(pid, "");
    assert n + "" == n;
  }

  /** A blank line contributes nothing, whatever the filter. */
  lemma {:induction false} BlankLinePid(line: string, filter: string)
    requires IsBlank(line)
    ensures LinePid(line, filter) == None
  {
    TrimEmptyIff(line);
  }

  // ---------------------------------------------------------------------
  // The whole listing

  /** LinePid for a fixed filter, as a function of the line. */
  function LinePidFor(filter: string): string -> Option<int> {
    line => LinePid(line, filter)
  }

  /** The identifiers the lines contribute, in the order of the lines. */
  function PidsOfLines(lines: seq<string>, filter: string): (pids: seq<int>)
    ensures |pids| <= |lines|
  {
    Somes(Map(LinePidFor(filter), lines))
  }

  /** The identifiers extracted from the listing text: at most one per line,
      so at most one more than the number of newlines. */
  function Pids(output: string, filter: string): (pids: seq<int>)
    ensures |pids| <= multiset(output)['\n'] + 1
  {
    SplitCount(output, '\n');
    PidsOfLines(Split(output, '\n'), filter)
  }

  /** Extraction distributes over concatenation of line lists. */
  lemma {:induction false} PidsOfLinesConcat(a: seq<string>, b: seq<string>, filter: string)
    ensures PidsOfLines(a + b, filter) == PidsOfLines(a, filter) + PidsOfLines(b, filter)
  {
    var f := LinePidFor(filter);
    MapConcat(f, a, b);
    SomesConcat(Map(f, a), Map(f, b));
  }

  /** Extraction of a single line. */
  lemma {:induction false} PidsOfLinesOne(line: string, filter: string)
    ensures PidsOfLines([line], filter) == OptionToSeq(LinePid(line, filter))
  {
    var os := Map(LinePidFor(filter), [line]);
    assert os == [LinePid(line, filter)];
    assert os[..0] == [];
  }

  /** Lines of the listing one at a time: the identifiers of the first i
      lines and then whatever line i contributes. */
  lemma {:induction false} PidsOfLinesStep(lines: seq<string>, i: nat, filter: string)
    requires i < |lines|
    ensures PidsOfLines(lines[..i + 1], filter) ==
      PidsOfLines(lines[..i], filter) + OptionToSeq(LinePid(lines[i], filter))
  {
    assert lines[..i + 1] == lines[..i] + [lines[i]];
    PidsOfLinesConcat(lines[..i], [lines[i]], filter);
    PidsOfLinesOne(lines[i], filter);
  }

  /** Text joined by a newline yields the identifiers of the first part
      followed by those of the second: order is kept and lines do not
      interfere. */
  lemma {:induction false} PidsConcat(a: string, b: string, filter: string)
    ensures Pids(a + "\n" + b, filter) == Pids(a, filter) + Pids(b, filter)
  {
    SplitConcat(a, b, '\n');
    assert a + "\n" + b == a + ['\n'] + b;
    PidsOfLinesConcat(Split(a, '\n'), Split(b, '\n'), filter);
  }

  /** Text without a newline is a single line. */
  lemma {:induction false} PidsOfOneLine(line: string, filter: string)
    requires '\n' !in line
    ensures Pids(line, filter) == OptionToSeq(LinePid(line, filter))
  {
    assert forall k :: 0 <= k < |line| ==> line[k] in line;
    SplitFree(line, '\n');
    PidsOfLinesOne(line, filter);
  }

  /** Empty listing output yields no identifiers. */
  lemma {:induction false} PidsOfEmptyOutput(filter: string)
    ensures Pids("", filter) == []
  {
    PidsOfOneLine("", filter);
    BlankLinePid("", filter);
  }

  /** Each identifier comes from its own line, in line order, and the
      contributing lines are exactly those whose LinePid is defined: idx
      lists the positions of the contributing lines, strictly increasing. */
  lemma {:induction false} Contributors(lines: seq<string>, filter: string) returns (idx: seq<int>)
    ensures |idx| == |PidsOfLines(lines, filter)|
    ensures forall k :: 0 <= k < |idx| ==>
      0 <= idx[k] < |lines| && LinePid(lines[idx[k]], filter) == Some(PidsOfLines(lines, filter)[k])
    ensures forall k, l :: 0 <= k < l < |idx| ==> idx[k] < idx[l]
    ensures forall j :: 0 <= j < |lines| ==> (LinePid(lines[j], filter).Some? <==> j in idx)
  {
    var os := Map(LinePidFor(filter), lines);
    idx := SomesPositions(os);
    assert PresentAt(os, Somes(os), idx);
  }

  // ---------------------------------------------------------------------
  // getPIDs

  /** The tests of the loop body of getPIDs, one after the other, decide
      what the line contributes. */
  lemma {:induction false} LinePidSteps(line: string, filter: string)
    ensures !FilterPs(line, filter) ==> LinePid(line, filter) == None
    ensures FilterPs(line, filter) && Trim(line) == [] ==> LinePid(line, filter) == None
    ensures FilterPs(line, filter) && Trim(line) != [] ==>
      LinePid(line, filter) == ParseInt(SplitWhiteSpace(Trim(line))[0])
  {
  }

  /** A line that contributes nothing leaves the identifiers as they are. */
  lemma {:induction false} StepNone(lines: seq<string>, i: int, filter: string)
    requires 0 <= i < |lines| && LinePid(lines[i], filter) == None
    ensures PidsOfLines(lines[..i + 1], filter) == PidsOfLines(lines[..i], filter)
  {
    PidsOfLinesStep(lines, i, filter);
    var before := PidsOfLines(lines[..i], filter);
    assert before + [] == before;
  }

  /** A line that contributes v appends v. */
  lemma {:induction false} StepSome(lines: seq<string>, i: int, filter: string, v: int)
    requires 0 <= i < |lines| && LinePid(lines[i], filter) == Some(v)
    ensures PidsOfLines(lines[..i + 1], filter) == PidsOfLines(lines[..i], filter) + [v]
  {
    PidsOfLinesStep(lines, i, filter);
  }

  /** The body of the loop of getPIDs for one line: skip it unless it
      passes the filter and is not blank once trimmed, then take parseInt
      of its first white-space-delimited token. */
  method ScanLine(line: string, filter: string) returns (pid: Option<int>)
    ensures pid == LinePid(line, filter)
  {
    LinePidSteps(line, filter);
    if !FilterPs(line, filter) {
      return None;
    }
    var trimmed := Trim(line);
    if trimmed != [] {
      var parts := SplitWhiteSpace(trimmed);
      if |parts| >= 1 {
        pid := ParseInt(parts[0]);
        return;
      }
    }
    pid := None;
  }

  /** The try block of getPIDs: run over the listing lines and keep the
      identifier of every line that passes the filter, is not blank and
      starts with a number. */
  method ScanListing(output: string, filter: string) returns (pids: seq<int>)
    ensures pids == Pids(output, filter)
  {
    pids := [];
    var lines := Split(output, '\n');
    for i := 0 to |lines|
      invariant pids == PidsOfLines(lines[..i], filter)
    {
      var pid := ScanLine(lines[i], filter);
      if pid.Some? {
        StepSome(lines, i, filter, pid.value);
        pids := pids + [pid.value];
      } else {
        StepNone(lines, i, filter);
      }
    }
    assert lines[..|lines|] == lines;
  }

  /** getPIDs: the identifiers of the listing, or the empty list when the
      listing command failed. */
  method GetPids(listing: Listing, filter: string) returns (pids: seq<int>)
    ensures listing.ListingFailed? ==> pids == []
    ensures listing.Listed? ==> pids == Pids(listing.stdout, filter)
  {
    match listing
    case ListingFailed(_) =>
      pids := [];
    case Listed(output) =>
      pids := ScanListing(output, filter);
  }
}
