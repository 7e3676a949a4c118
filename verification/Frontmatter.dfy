/** The leading frontmatter block of a document: a line scan that steps over fenced code. One char is one byte. */
module Frontmatter {
  import opened Wrappers

  // ---- Lines

  /** The length of the first line, without its terminator. */
  function LineLength(s: string): (n: nat)
    ensures n <= |s| && '\n' !in s[..n] && (n < |s| ==> s[n] == '\n')
  {
    if s == "" || s[0] == '\n' then 0
    else
      var n := LineLength(s[1..]);
      assert s[..n + 1] == [s[0]] + s[1..][..n];
      n + 1
  }

  function FirstLine(s: string): string {
    s[..LineLength(s)]
  }

  /** How far the next line is. */
  function Advance(s: string): (n: nat)
    ensures n <= |s| && (s != "" ==> n > 0)
  {
    if LineLength(s) < |s| then LineLength(s) + 1 else |s|
  }

  lemma {:induction false} LineLengthIs(s: string, n: nat)
    requires n <= |s| && '\n' !in s[..n] && (n < |s| ==> s[n] == '\n')
    ensures LineLength(s) == n
  {
    var m := LineLength(s);
    assert forall i :: 0 <= i < n ==> s[i] == s[..n][i];
    assert forall i :: 0 <= i < m ==> s[i] == s[..m][i];
  }

  /** A text whose first line is known. */
  lemma SplitLine(line: string, rest: string)
    requires '\n' !in line
    ensures LineLength(line + "\n" + rest) == |line| && FirstLine(line + "\n" + rest) == line
    ensures Advance(line + "\n" + rest) == |line| + 1 && (line + "\n" + rest)[|line| + 1..] == rest
  {
    var s := line + "\n" + rest;
    assert s[..|line|] == line;
    LineLengthIs(s, |line|);
  }

  lemma JoinAt(s: string, n: nat)
    requires n < |s|
    ensures s == s[..n] + [s[n]] + s[n + 1..]
  {
  }

  lemma JoinLine(s: string)
    requires LineLength(s) < |s|
    ensures s == FirstLine(s) + "\n" + s[Advance(s)..] && '\n' !in FirstLine(s)
  {
    hide LineLength;
    JoinAt(s, LineLength(s));
  }

  function TrimCR(line: string): string {
    if line != "" && line[|line| - 1] == '\r' then line[..|line| - 1] else line
  }

  predicate AtLineStart(s: string, j: nat) {
    j == 0 || (j <= |s| && s[j - 1] == '\n')
  }

  // ---- Fences

  datatype Fence = Fence(mark: char, length: nat)

  function RunLength(s: string, c: char): (n: nat)
    ensures n <= |s|
    ensures forall i :: 0 <= i < n ==> s[i] == c
    ensures n < |s| ==> s[n] != c
  {
    if s == "" || s[0] != c then 0 else RunLength(s[1..], c) + 1
  }

  function FenceInfo(line: string): Option<Fence> {
    if line == "" || (line[0] != '`' && line[0] != '~') then None
    else if RunLength(line, line[0]) < 3 then None
    else Some(Fence(line[0], RunLength(line, line[0])))
  }

  method ScanFence(line: string) returns (fence: Option<Fence>)
    ensures fence == FenceInfo(line)
  {
    if line == "" || (line[0] != '`' && line[0] != '~') {
      return None;
    }
    var n := 0;
    while n < |line| && line[n] == line[0]
      invariant n <= |line| && RunLength(line, line[0]) == n + RunLength(line[n..], line[0])
    {
      assert line[n..][1..] == line[n + 1..];
      n := n + 1;
    }
    return if n < 3 then None else Some(Fence(line[0], n));
  }

  /** The open fence after a line. */
  function AfterLine(open: Option<Fence>, line: string): Option<Fence> {
    var info := FenceInfo(line);
    if open.Some? then
      if info.Some? && info.value.mark == open.value.mark && info.value.length >= open.value.length then None else open
    else info
  }

  /** A delimiter outside every fence. */
  predicate Closes(open: Option<Fence>, line: string) {
    open.None? && FenceInfo(line).None? && line == "---"
  }

  // ---- The scan

  /** Where the closing delimiter starts, and where the line after it starts. */
  datatype Block = Block(end: nat, next: nat)

  function Shift(block: Option<Block>, n: nat): Option<Block> {
    if block.Some? then Some(Block(block.value.end + n, block.value.next + n)) else None
  }

  function Scan(s: string, open: Option<Fence>): (block: Option<Block>)
    ensures block.Some? ==> block.value.end < block.value.next <= |s|
    decreases |s|
  {
    if s == "" then None
    else
      var line := TrimCR(FirstLine(s));
      if Closes(open, line) then Some(Block(0, Advance(s)))
      else Shift(Scan(s[Advance(s)..], AfterLine(open, line)), Advance(s))
  }

  datatype Bounds = Bounds(start: nat, end: nat, next: nat)

  function Locate(s: string): (bounds: Option<Bounds>)
    ensures bounds.Some? ==> 0 < bounds.value.start <= bounds.value.end < bounds.value.next <= |s|
  {
    if TrimCR(FirstLine(s)) != "---" then None
    else
      var block := Shift(Scan(s[Advance(s)..], None), Advance(s));
      if block.Some? then Some(Bounds(Advance(s), block.value.end, block.value.next)) else None
  }

  method ScanLine(s: string, pos: nat) returns (lineEnd: nat, next: nat)
    requires pos <= |s|
    ensures lineEnd == pos + LineLength(s[pos..]) && next == pos + Advance(s[pos..]) && lineEnd <= next <= |s|
  {
    lineEnd := pos;
    while lineEnd < |s| && s[lineEnd] != '\n'
      invariant pos <= lineEnd <= |s| && '\n' !in s[pos..lineEnd]
    {
      lineEnd := lineEnd + 1;
    }
    assert s[pos..][..lineEnd - pos] == s[pos..lineEnd];
    LineLengthIs(s[pos..], lineEnd - pos);
    next := if lineEnd < |s| then lineEnd + 1 else |s|;
  }

  method FrontmatterBounds(s: string) returns (bounds: Option<Bounds>)
    ensures bounds == Locate(s)
  {
    var lineEnd, lineNext := ScanLine(s, 0);
    hide Scan, FirstLine, LineLength, Advance, TrimCR;
    assert s[0..] == s;
    FirstLineIs(s, 0, lineEnd);
    if TrimCR(s[0..lineEnd]) != "---" {
      return None;
    }
    var block := ScanBlock(s, lineNext);
    bounds := if block.Some? then Some(Bounds(lineNext, block.value.end, block.value.next)) else None;
  }

  /** The loop over the lines after the opening one. */
  method ScanBlock(s: string, start: nat) returns (block: Option<Block>)
    requires start <= |s|
    ensures block == Shift(Scan(s[start..], None), start)
  {
    hide Scan, Closes, AfterLine, FirstLine, LineLength, Advance, TrimCR, Scanning;
    var fence: Option<Fence> := None;
    ScanStarts(s, start);
    var pos := start;
    while pos < |s|
      invariant start <= pos <= |s| && Scanning(s, start, pos, fence)
    {
      ScanStep(s, start, pos, fence);
      var lineEnd, lineNext := ScanLine(s, pos);
      FirstLineIs(s, pos, lineEnd);
      var closed;
      closed, fence := ReadLine(fence, TrimCR(s[pos..lineEnd]));
      if closed {
        return Some(Block(pos, lineNext));
      }
      pos := lineNext;
    }
    ScanEnds(s, start, fence);
    return None;
  }

  /** One line of the scan: is it the closing delimiter, and which fence is open after it. */
  method ReadLine(open: Option<Fence>, line: string) returns (closed: bool, fence: Option<Fence>)
    ensures closed == Closes(open, line) && fence == AfterLine(open, line)
  {
    closed, fence := false, open;
    var info := ScanFence(line);
    if open.Some? {
      if info.Some? && info.value.mark == open.value.mark && info.value.length >= open.value.length {
        fence := None;
      }
    } else if info.Some? {
      fence := info;
    } else if line == "---" {
      closed := true;
    }
  }

  lemma FirstLineIs(s: string, pos: nat, lineEnd: nat)
    requires pos <= |s| && lineEnd == pos + LineLength(s[pos..])
    ensures s[pos..lineEnd] == FirstLine(s[pos..])
  {
  }

  lemma ScanStarts(s: string, start: nat)
    requires start <= |s|
    ensures Scanning(s, start, start, None)
  {
  }

  lemma ScanEnds(s: string, start: nat, open: Option<Fence>)
    requires start <= |s| && Scanning(s, start, |s|, open)
    ensures Scan(s[start..], None).None?
  {
    assert s[|s|..] == "";
  }

  /** The scan from `start` has come to `pos` with this fence open. */
  ghost predicate Scanning(s: string, start: nat, pos: nat, open: Option<Fence>)
    requires start <= |s| && pos <= |s|
  {
    Shift(Scan(s[start..], None), start) == Shift(Scan(s[pos..], open), pos)
  }

  lemma ScanStep(s: string, start: nat, pos: nat, open: Option<Fence>)
    requires start <= pos < |s| && Scanning(s, start, pos, open)
    ensures var line, n := TrimCR(FirstLine(s[pos..])), Advance(s[pos..]);
            && pos + n <= |s|
            && (if Closes(open, line) then Shift(Scan(s[start..], None), start) == Some(Block(pos, pos + n))
                else Scanning(s, start, pos + n, AfterLine(open, line)))
  {
    hide TrimCR, FirstLine, Closes, AfterLine, Scan, Advance;
    var rest := s[pos..];
    ScanUnfold(rest, open);
    assert rest[Advance(rest)..] == s[pos + Advance(rest)..];
  }

  lemma ScanUnfold(s: string, open: Option<Fence>)
    requires s != ""
    ensures var line, n := TrimCR(FirstLine(s)), Advance(s);
            Scan(s, open) ==
                if Closes(open, line) then Some(Block(0, n)) else Shift(Scan(s[n..], AfterLine(open, line)), n)
  {
  }

  // ---- What the scan finds

  /** The fence open at a line start, if any. */
  function FenceAt(s: string, open: Option<Fence>, j: nat): Option<Fence>
    decreases |s|
  {
    if s == "" || j < Advance(s) then open
    else FenceAt(s[Advance(s)..], AfterLine(open, TrimCR(FirstLine(s))), j - Advance(s))
  }

  ghost predicate Delimiter(s: string, open: Option<Fence>, j: nat) {
    j < |s| && AtLineStart(s, j) && Closes(FenceAt(s, open, j), TrimCR(FirstLine(s[j..])))
  }

  ghost predicate IsFirstDelimiter(s: string, open: Option<Fence>, block: Option<Block>) {
    && (block.Some? ==>
          && Delimiter(s, open, block.value.end)
          && block.value.next == block.value.end + Advance(s[block.value.end..]))
    && (forall j: nat :: Delimiter(s, open, j) ==> block.Some? && block.value.end <= j)
  }

  /** The block ends at the first delimiter line outside every fence, and is unclosed when there is none. */
  lemma {:induction false} ScanFindsFirst(s: string, open: Option<Fence>)
    ensures IsFirstDelimiter(s, open, Scan(s, open))
    decreases |s|
  {
    hide Scan, AfterLine, Closes, TrimCR, FirstLine, Advance, IsFirstDelimiter;
    if s == "" {
      NoDelimiter(open);
    } else if Closes(open, TrimCR(FirstLine(s))) {
      ClosesAtOnce(s, open);
    } else {
      var open1 := AfterLine(open, TrimCR(FirstLine(s)));
      ScanUnfold(s, open);
      ScanFindsFirst(s[Advance(s)..], open1);
      FirstDelimiterShift(s, open, Scan(s[Advance(s)..], open1));
    }
  }

  lemma NoDelimiter(open: Option<Fence>)
    ensures IsFirstDelimiter("", open, Scan("", open))
  {
  }

  lemma FirstDelimiterShift(s: string, open: Option<Fence>, block: Option<Block>)
    requires s != "" && !Closes(open, TrimCR(FirstLine(s)))
    requires block.Some? ==> block.value.end < |s[Advance(s)..]|
    requires IsFirstDelimiter(s[Advance(s)..], AfterLine(open, TrimCR(FirstLine(s))), block)
    ensures IsFirstDelimiter(s, open, Shift(block, Advance(s)))
  {
    hide AfterLine, Closes, TrimCR, FirstLine, Advance, Delimiter;
    var n := Advance(s);
    if block.Some? {
      DelimiterShift(s, open, block.value.end);
      assert s[n..][block.value.end..] == s[n + block.value.end..];
    }
    forall j: nat | Delimiter(s, open, j) ensures block.Some? && block.value.end + n <= j {
      NotBeforeFirst(s, open, j);
      DelimiterShift(s, open, j - n);
    }
  }

  lemma ClosesAtOnce(s: string, open: Option<Fence>)
    requires s != "" && Closes(open, TrimCR(FirstLine(s)))
    ensures IsFirstDelimiter(s, open, Scan(s, open))
  {
    assert s[0..] == s;
  }

  lemma NotBeforeFirst(s: string, open: Option<Fence>, j: nat)
    requires s != "" && Delimiter(s, open, j) && !Closes(open, TrimCR(FirstLine(s)))
    ensures j >= Advance(s)
  {
    NoStartInside(s, j);
    if j == 0 { assert s[0..] == s; }
  }

  /** No line starts inside the first one. */
  lemma NoStartInside(s: string, j: nat)
    requires s != "" && AtLineStart(s, j) && j < |s|
    ensures j == 0 || j >= Advance(s)
  {
    assert forall i :: 0 <= i < LineLength(s) ==> s[i] == s[..LineLength(s)][i];
  }

  lemma DelimiterShift(s: string, open: Option<Fence>, j: nat)
    requires s != ""
    ensures Delimiter(s, open, j + Advance(s)) <==> Delimiter(s[Advance(s)..], AfterLine(open, TrimCR(FirstLine(s))), j)
  {
    var n := Advance(s);
    var rest := s[n..];
    if j < |rest| {
      assert s[j + n..] == rest[j..];
      if j == 0 { assert s[n - 1] == '\n'; } else { assert rest[j - 1] == s[j + n - 1]; }
    }
  }
}
