/** The frontmatter scan told by the lines themselves: which lines stand in a fence, where the block closes, and that
    line endings make no difference. */
module FrontmatterLines {
  import opened Wrappers
  import opened Frontmatter

  // ---- Lines

  /** The text of a line, its ending aside: a line break, or the end of the document. */
  ghost predicate IsLine(s: string, j: nat, line: string, next: nat) {
    && AtLineStart(s, j) && j < next <= |s| && '\n' !in line
    && (s[j..next] == line + "\n" || (next == |s| && s[j..next] == line))
  }

  /** The line without the carriage return that may end it. */
  ghost predicate IsBare(line: string, bare: string) {
    line == bare + "\r" || (line == bare && forall x :: line != x + "\r")
  }

  lemma LinesAre(s: string, j: nat)
    requires j < |s| && AtLineStart(s, j)
    ensures IsLine(s, j, FirstLine(s[j..]), j + Advance(s[j..]))
    ensures IsBare(FirstLine(s[j..]), TrimCR(FirstLine(s[j..])))
  {
    var rest := s[j..];
    var n := Advance(rest);
    BareLine(FirstLine(rest));
    assert s[j..j + n] == rest[..n];
    if LineLength(rest) < |rest| {
      JoinLine(rest);
      assert rest[..n] == FirstLine(rest) + "\n";
    } else {
      assert rest[..n] == FirstLine(rest);
    }
  }

  lemma BareLine(line: string)
    ensures IsBare(line, TrimCR(line))
  {
    if line != "" && line[|line| - 1] == '\r' {
      assert line == line[..|line| - 1] + "\r";
    } else {
      forall x ensures line != x + "\r" { assert (x + "\r")[|x|] == '\r'; }
    }
  }

  // ---- Fences

  /** The line begins with this many backquotes or tildes. */
  predicate HasMarks(line: string, mark: char, n: nat) {
    n <= |line| && forall i :: 0 <= i < n ==> line[i] == mark
  }

  /** The line begins with exactly `n` marks, three or more. */
  predicate Opens(line: string, mark: char, n: nat) {
    (mark == '`' || mark == '~') && n >= 3 && HasMarks(line, mark, n) && !HasMarks(line, mark, n + 1)
  }

  lemma FenceInfoExactly(line: string)
    ensures forall mark, n: nat :: FenceInfo(line) == Some(Fence(mark, n)) <==> Opens(line, mark, n)
    ensures forall mark, n: nat :: n >= 3 && (mark == '`' || mark == '~') ==>
              (HasMarks(line, mark, n) <==>
               FenceInfo(line).Some? && FenceInfo(line).value.mark == mark && FenceInfo(line).value.length >= n)
  {
    forall mark, n: nat ensures FenceInfo(line) == Some(Fence(mark, n)) <==> Opens(line, mark, n) {
      if line != "" { var m := RunLength(line, line[0]); }
    }
  }

  /** The first line from here on with `n` of the mark. */
  ghost predicate FirstCloser(s: string, mark: char, n: nat, c: nat) {
    && c < |s| && AtLineStart(s, c) && HasMarks(TrimCR(FirstLine(s[c..])), mark, n)
    && forall k :: 0 <= k < c && AtLineStart(s, k) ==> !HasMarks(TrimCR(FirstLine(s[k..])), mark, n)
  }

  ghost predicate NoCloser(s: string, mark: char, n: nat) {
    forall c :: !FirstCloser(s, mark, n, c)
  }

  /** Where the line after the one at `c` starts. */
  function LineAfter(s: string, c: nat): (n: nat)
    requires c <= |s|
    ensures c <= n <= |s| && (c < |s| ==> c < n)
  {
    c + Advance(s[c..])
  }

  /** From a line start outside every fence, the line start `j` is outside too: a fence opened before it by `n` marks
      has been closed before it, by the first later line with `n` of the same mark. */
  ghost predicate Outside(s: string, j: nat)
    decreases |s|
  {
    if j == 0 then true
    else if s == "" || j < Advance(s) then false
    else
      var line, rest, k := TrimCR(FirstLine(s)), s[Advance(s)..], j - Advance(s);
      && (forall mark, n: nat :: Opens(line, mark, n) ==>
            exists c :: FirstCloser(rest, mark, n, c) && LineAfter(rest, c) <= k &&
                        Outside(rest[LineAfter(rest, c)..], k - LineAfter(rest, c)))
      && ((forall mark, n: nat :: !Opens(line, mark, n)) ==> Outside(rest, k))
  }

  lemma StartsInRest(s: string, k: nat)
    requires s != "" && Advance(s) + k < |s|
    ensures AtLineStart(s, Advance(s) + k) <==> AtLineStart(s[Advance(s)..], k)
  {
  }

  /** In a fence, a closer of the rest is the closer of the whole unless the first line closes. */
  lemma CloserShift(s: string, mark: char, n: nat, c: nat)
    requires s != "" && !HasMarks(TrimCR(FirstLine(s)), mark, n)
    ensures FirstCloser(s, mark, n, c + Advance(s)) <==> FirstCloser(s[Advance(s)..], mark, n, c)
    ensures c < Advance(s) ==> !FirstCloser(s, mark, n, c)
  {
    hide TrimCR, FirstLine, HasMarks, Advance;
    var a := Advance(s);
    var rest := s[a..];
    assert s[0..] == s;
    forall k: nat | a + k < |s|
      ensures s[a + k..] == rest[k..] && (AtLineStart(s, a + k) <==> AtLineStart(rest, k))
    {
      StartsInRest(s, k);
    }
    if c < a && c < |s| && AtLineStart(s, c) { NoStartInside(s, c); }
    if FirstCloser(s, mark, n, c + a) {
      forall k | 0 <= k < c && AtLineStart(rest, k) ensures !HasMarks(TrimCR(FirstLine(rest[k..])), mark, n) {
        assert AtLineStart(s, a + k);
      }
    }
    if FirstCloser(rest, mark, n, c) {
      forall k | 0 <= k < c + a && AtLineStart(s, k) ensures !HasMarks(TrimCR(FirstLine(s[k..])), mark, n) {
        NoStartInside(s, k);
        if k >= a { assert AtLineStart(rest, k - a); }
      }
    }
  }

  lemma ClosesHere(s: string, mark: char, n: nat)
    requires s != "" && HasMarks(TrimCR(FirstLine(s)), mark, n)
    ensures FirstCloser(s, mark, n, 0) && forall c: nat :: FirstCloser(s, mark, n, c) ==> c == 0
  {
    hide TrimCR, FirstLine, HasMarks;
    assert s[0..] == s;
  }

  /** A fence lasts to the first line that closes it. */
  lemma {:induction false} InFence(s: string, mark: char, n: nat, j: nat)
    requires n >= 3 && (mark == '`' || mark == '~')
    ensures forall c :: FirstCloser(s, mark, n, c) && LineAfter(s, c) <= j ==>
              FenceAt(s, Some(Fence(mark, n)), j) == FenceAt(s[LineAfter(s, c)..], None, j - LineAfter(s, c))
    ensures (forall c :: FirstCloser(s, mark, n, c) ==> LineAfter(s, c) > j) ==>
              FenceAt(s, Some(Fence(mark, n)), j) == Some(Fence(mark, n))
    decreases |s|
  {
    hide TrimCR, FirstLine, HasMarks, Advance, FirstCloser, FenceInfo;
    var open := Some(Fence(mark, n));
    if s == "" {
      NoneInEmpty(mark, n);
    } else if HasMarks(TrimCR(FirstLine(s)), mark, n) {
      FenceInfoExactly(TrimCR(FirstLine(s)));
      ClosesHere(s, mark, n);
      assert LineAfter(s, 0) == Advance(s) by { assert s[0..] == s; }
    } else {
      FenceInfoExactly(TrimCR(FirstLine(s)));
      var a := Advance(s);
      var rest := s[a..];
      assert AfterLine(open, TrimCR(FirstLine(s))) == open;
      CloserAfter(s, mark, n);
      if j >= a {
        InFence(rest, mark, n, j - a);
      }
    }
  }

  lemma NoneInEmpty(mark: char, n: nat)
    ensures forall c :: !FirstCloser("", mark, n, c)
  {
  }

  /** The closers of a text whose first line does not close are those of its rest. */
  lemma CloserAfter(s: string, mark: char, n: nat)
    requires s != "" && !HasMarks(TrimCR(FirstLine(s)), mark, n)
    ensures var a := Advance(s);
            && (forall c: nat :: FirstCloser(s, mark, n, c) ==>
                  && a <= c < |s| && FirstCloser(s[a..], mark, n, c - a) && LineAfter(s, c) == LineAfter(s[a..],
                          c - a) + a
                  && s[LineAfter(s, c)..] == s[a..][LineAfter(s[a..], c - a)..])
            && (forall c: nat :: FirstCloser(s[a..], mark, n, c) ==>
                  c + a < |s| && FirstCloser(s, mark, n, c + a) && LineAfter(s, c + a) == LineAfter(s[a..], c) + a)
  {
    hide TrimCR, FirstLine, HasMarks, Advance, FirstCloser;
    var a := Advance(s);
    forall c: nat | FirstCloser(s, mark, n, c)
      ensures && a <= c < |s| && FirstCloser(s[a..], mark, n, c - a)
           && LineAfter(s, c) == LineAfter(s[a..], c - a) + a
           && s[LineAfter(s, c)..] == s[a..][LineAfter(s[a..], c - a)..]
    {
      CloserShift(s, mark, n, c);
      CloserShift(s, mark, n, c - a);
      CloserInside(s, mark, n, c);
      LineAfterShift(s, a, c);
    }
    forall c: nat | FirstCloser(s[a..], mark, n, c)
      ensures c + a < |s| && FirstCloser(s, mark, n, c + a) && LineAfter(s, c + a) == LineAfter(s[a..], c) + a
    {
      CloserShift(s, mark, n, c);
      CloserInside(s[a..], mark, n, c);
      LineAfterShift(s, a, c + a);
    }
  }

  lemma CloserInside(s: string, mark: char, n: nat, c: nat)
    requires FirstCloser(s, mark, n, c)
    ensures c < |s|
  {
  }

  lemma LineAfterShift(s: string, a: nat, c: nat)
    requires a <= c < |s|
    ensures LineAfter(s, c) == LineAfter(s[a..], c - a) + a
    ensures s[LineAfter(s, c)..] == s[a..][LineAfter(s[a..], c - a)..]
  {
    assert s[c..] == s[a..][c - a..];
  }

  /** No fence is open exactly at the line starts outside every fence. */
  lemma {:induction false} UnfencedOutside(s: string, j: nat)
    requires j < |s| && AtLineStart(s, j)
    ensures FenceAt(s, None, j).None? <==> Outside(s, j)
    decreases |s|
  {
    hide TrimCR, FirstLine, Advance, FenceInfo, Outside, FirstCloser, AtLineStart;
    NoStartInside(s, j);
    if j == 0 {
      StartsOutside(s);
    } else {
      var line, rest, k := TrimCR(FirstLine(s)), s[Advance(s)..], j - Advance(s);
      StartsInRest(s, k);
      assert FenceAt(s, None, j) == FenceAt(rest, FenceInfo(line), k);
      if FenceInfo(line).None? {
        OutsidePlain(s, j);
        UnfencedOutside(rest, k);
      } else {
        var mark, n := FenceInfo(line).value.mark, FenceInfo(line).value.length;
        OutsideFence(s, j, mark, n);
        InFence(rest, mark, n, k);
        forall c | FirstCloser(rest, mark, n, c) && LineAfter(rest, c) <= k
          ensures FenceAt(rest, Some(Fence(mark, n)), k).None? <==>
                  Outside(rest[LineAfter(rest, c)..], k - LineAfter(rest, c))
        {
          AfterCloser(rest, mark, n, c, k);
          UnfencedOutside(rest[LineAfter(rest, c)..], k - LineAfter(rest, c));
        }
      }
    }
  }

  lemma StartsOutside(s: string)
    requires s != ""
    ensures Outside(s, 0) && FenceAt(s, None, 0).None?
  {
  }

  /** Past a line that opens nothing. */
  lemma OutsidePlain(s: string, j: nat)
    requires s != "" && 0 < Advance(s) <= j && FenceInfo(TrimCR(FirstLine(s))).None?
    ensures Outside(s, j) <==> Outside(s[Advance(s)..], j - Advance(s))
  {
    FenceInfoExactly(TrimCR(FirstLine(s)));
    hide Opens, FenceInfo, TrimCR, FirstLine, Advance;
  }

  /** Past a line that opens a fence. */
  lemma OutsideFence(s: string, j: nat, mark: char, n: nat)
    requires s != "" && 0 < Advance(s) <= j && FenceInfo(TrimCR(FirstLine(s))) == Some(Fence(mark, n))
    ensures n >= 3 && (mark == '`' || mark == '~')
    ensures var rest, k := s[Advance(s)..], j - Advance(s);
            Outside(s, j) <==>
              exists c :: FirstCloser(rest, mark, n, c) && LineAfter(rest, c) <= k &&
                          Outside(rest[LineAfter(rest, c)..], k - LineAfter(rest, c))
  {
    var line := TrimCR(FirstLine(s));
    FenceInfoExactly(line);
    assert Opens(line, mark, n);
    OneOpening(line, mark, n);
    hide Opens, FenceInfo, TrimCR, FirstLine, Advance, FirstCloser;
  }

  lemma OneOpening(line: string, mark: char, n: nat)
    requires Opens(line, mark, n)
    ensures forall other, m: nat :: Opens(line, other, m) ==> other == mark && m == n
  {
    FenceInfoExactly(line);
  }

  lemma AfterCloser(s: string, mark: char, n: nat, c: nat, k: nat)
    requires FirstCloser(s, mark, n, c) && LineAfter(s, c) <= k < |s| && AtLineStart(s, k)
    ensures c < |s| && |s[LineAfter(s, c)..]| < |s| && AtLineStart(s[LineAfter(s, c)..], k - LineAfter(s, c))
  {
  }

  // ---- The block

  /** A line of three dashes outside every fence. */
  ghost predicate ClosesBlock(s: string, j: nat) {
    j < |s| && AtLineStart(s, j) && TrimCR(FirstLine(s[j..])) == "---" && Outside(s, j)
  }

  /** What follows the opening line ends at its first line of three dashes outside every fence, and is unclosed without
      one. */
  lemma BlockExactly(s: string)
    ensures match Scan(s, None)
            case Some(block) =>
              && ClosesBlock(s, block.end) && block.next == LineAfter(s, block.end)
              && forall j :: 0 <= j < block.end ==> !ClosesBlock(s, j)
            case None => forall j :: !ClosesBlock(s, j)
  {
    ScanFindsFirst(s, None);
    hide TrimCR, FirstLine, Advance, FenceAt, Outside, Scan;
    DashesOpenNothing();
    forall j: nat ensures Delimiter(s, None, j) <==> ClosesBlock(s, j) {
      if j < |s| && AtLineStart(s, j) { UnfencedOutside(s, j); }
    }
  }

  /** A document has a block exactly when its first line is three dashes and a later line closes it; the block ends at
      the first that does. */
  lemma LocateExactly(s: string)
    ensures var start := LineAfter(s, 0);
            match Locate(s)
            case Some(b) =>
              && TrimCR(FirstLine(s)) == "---" && b.start == start <= b.end && ClosesBlock(s[start..], b.end - start)
              && b.next == start + LineAfter(s[start..], b.end - start)
              && forall j :: 0 <= j < b.end - start ==> !ClosesBlock(s[start..], j)
            case None => TrimCR(FirstLine(s)) == "---" ==> forall j :: !ClosesBlock(s[start..], j)
  {
    assert s[0..] == s;
    BlockExactly(s[LineAfter(s, 0)..]);
    hide TrimCR, FirstLine, Advance, ClosesBlock, Scan;
  }

  lemma DashesOpenNothing()
    ensures FenceInfo("---").None?
  {
  }

  // ---- Line endings

  /** The text with every line break written as two characters. */
  function Crlf(s: string): string {
    if s == "" then "" else (if s[0] == '\n' then "\r\n" else [s[0]]) + Crlf(s[1..])
  }

  lemma {:induction false} CrlfJoin(a: string, b: string)
    ensures Crlf(a + b) == Crlf(a) + Crlf(b)
  {
    hide Crlf;
    if a == "" {
      CrlfEmpty();
      assert a + b == b;
    } else {
      CrlfJoin(a[1..], b);
      CrlfFirst(a[0], a[1..] + b);
      CrlfFirst(a[0], a[1..]);
      assert a + b == [a[0]] + (a[1..] + b) && a == [a[0]] + a[1..];
    }
  }

  lemma CrlfFirst(c: char, s: string)
    ensures Crlf([c] + s) == (if c == '\n' then "\r\n" else [c]) + Crlf(s)
  {
    assert ([c] + s)[1..] == s;
  }

  lemma {:induction false} CrlfLine(line: string)
    requires '\n' !in line
    ensures Crlf(line) == line
  {
    if line == "" {
    } else {
      CrlfLine(line[1..]);
      assert line == [line[0]] + line[1..];
    }
  }

  /** The first line and the rest, with the longer line breaks. */
  lemma CrlfFirstLine(s: string)
    requires s != "" && '\r' !in s
    ensures var t := Crlf(s);
            && t != "" && TrimCR(FirstLine(t)) == TrimCR(FirstLine(s)) && Advance(t) == |Crlf(s[..Advance(s)])|
            && t[Advance(t)..] == Crlf(s[Advance(s)..])
  {
    hide Crlf, TrimCR;
    if LineLength(s) < |s| { CrlfBroken(s); } else { CrlfLast(s); }
  }

  lemma CrlfLast(s: string)
    requires s != "" && LineLength(s) == |s|
    ensures var t := Crlf(s);
            t != "" && FirstLine(t) == FirstLine(s) && Advance(t) == |Crlf(s[..Advance(s)])| && t[Advance(t)..] == ""
    ensures Crlf(s[Advance(s)..]) == ""
  {
    CrlfLine(s);
    assert s[..|s|] == s;
  }

  lemma CrlfBroken(s: string)
    requires LineLength(s) < |s| && '\r' !in s
    ensures var t := Crlf(s);
            && t != "" && TrimCR(FirstLine(t)) == TrimCR(FirstLine(s)) && Advance(t) == |Crlf(s[..Advance(s)])|
            && t[Advance(t)..] == Crlf(s[Advance(s)..])
  {
    var line, rest := FirstLine(s), s[Advance(s)..];
    JoinLine(s);
    assert s[..Advance(s)] == line + "\n";
    assert '\r' !in line;
    hide LineLength, Crlf, FirstLine, Advance;
    CrlfLine(line);
    CrlfJoin(line + "\n", rest);
    CrlfJoin(line, "\n");
    CrlfFirst('\n', "");
    CrlfEmpty();
    assert Crlf(line + "\n") == line + "\r\n" == (line + "\r") + "\n";
    SplitLine(line + "\r", Crlf(rest));
    TrimsOne(line);
  }

  lemma TrimsOne(line: string)
    requires '\r' !in line
    ensures TrimCR(line) == line && TrimCR(line + "\r") == line
  {
  }

  lemma CrlfEmpty()
    ensures Crlf("") == "" && ['\n'] + "" == "\n"
  {
  }

  /** Where a position of the text is after its line breaks have been rewritten. */
  function Moved(s: string, block: Option<Block>): Option<Block>
    requires block.Some? ==> block.value.end <= |s| && block.value.next <= |s|
  {
    if block.None? then None else Some(Block(|Crlf(s[..block.value.end])|, |Crlf(s[..block.value.next])|))
  }

  lemma {:induction false} ScanCrlf(s: string, open: Option<Fence>)
    requires '\r' !in s
    ensures Scan(Crlf(s), open) == Moved(s, Scan(s, open))
    decreases |s|
  {
    hide TrimCR, FirstLine, Advance, AfterLine, Closes, LineLength;
    if s == "" {
    } else {
      var a := Advance(s);
      var rest, line := s[a..], TrimCR(FirstLine(s));
      CrlfFirstLine(s);
      ScanUnfold(s, open);
      ScanUnfold(Crlf(s), open);
      CrlfEmpty();
      hide Scan;
      if Closes(open, line) {
        assert s[..0] == "";
      } else {
        ScanCrlf(rest, AfterLine(open, line));
        MovedOn(s, Scan(rest, AfterLine(open, line)));
      }
    }
  }

  lemma MovedOn(s: string, block: Option<Block>)
    requires s != "" && (block.Some? ==> block.value.end < block.value.next <= |s[Advance(s)..]|)
    ensures Moved(s, Shift(block, Advance(s))) == Shift(Moved(s[Advance(s)..], block), |Crlf(s[..Advance(s)])|)
  {
    var a := Advance(s);
    if block.Some? {
      assert s[..a + block.value.end] == s[..a] + s[a..][..block.value.end];
      assert s[..a + block.value.next] == s[..a] + s[a..][..block.value.next];
      CrlfJoin(s[..a], s[a..][..block.value.end]);
      CrlfJoin(s[..a], s[a..][..block.value.next]);
    }
  }

  lemma LocateCrlf(s: string)
    requires '\r' !in s
    ensures match Locate(s)
            case None => Locate(Crlf(s)).None?
            case Some(b) =>
              Locate(Crlf(s)) == Some(Bounds(|Crlf(s[..b.start])|, |Crlf(s[..b.end])|, |Crlf(s[..b.next])|))
  {
    if s == "" {
    } else {
      CrlfFirstLine(s);
      hide TrimCR, FirstLine, Scan, Crlf, LineLength, Advance;
      ScanCrlf(s[Advance(s)..], None);
      MovedOn(s, Scan(s[Advance(s)..], None));
    }
  }

  /** A document has the same block, line for line, with either kind of line ending. */
  lemma LineEndingsDoNotMatter(s: string)
    requires '\r' !in s
    ensures Locate(Crlf(s)).Some? <==> Locate(s).Some?
    ensures Locate(s).Some? ==>
              var b, c := Locate(s).value, Locate(Crlf(s)).value;
              && Crlf(s)[..c.start] == Crlf(s[..b.start]) && Crlf(s)[..c.end] == Crlf(s[..b.end])
              && Crlf(s)[..c.next] == Crlf(s[..b.next])
  {
    LocateCrlf(s);
    hide Locate, Crlf;
    if Locate(s).Some? {
      var b := Locate(s).value;
      CrlfPrefix(s, b.start);
      CrlfPrefix(s, b.end);
      CrlfPrefix(s, b.next);
    }
  }

  lemma CrlfPrefix(s: string, n: nat)
    requires n <= |s|
    ensures |Crlf(s[..n])| <= |Crlf(s)| && Crlf(s)[..|Crlf(s[..n])|] == Crlf(s[..n])
  {
    assert s == s[..n] + s[n..];
    CrlfJoin(s[..n], s[n..]);
  }
}
