/** Renaming a frontmatter key: only the key's bytes change, and renaming back restores the document. */
module RenameField {
  import opened Wrappers
  import opened Frontmatter

  const BOM := "\U{EF}\U{BB}\U{BF}"

  // ---- The line that holds the key

  function ShiftKey(k: Option<nat>, n: nat): Option<nat> {
    if k.Some? then Some(k.value + n) else None
  }

  /** The start of the first line that begins with a prefix. */
  function Key(t: string, prefix: string): (k: Option<nat>)
    ensures k.Some? ==> k.value + |prefix| <= |t|
    decreases |t|
  {
    if t == "" then None
    else if prefix <= FirstLine(t) then Some(0)
    else ShiftKey(Key(t[Advance(t)..], prefix), Advance(t))
  }

  function Replace(s: string, k: nat, from: string, to: string): string
    requires k + |from| <= |s|
  {
    s[..k] + to + s[k + |from|..]
  }

  datatype Renamed = Renamed(text: string, changed: bool)

  /** Where the key stands in a document without its byte order mark. */
  function KeyIn(t: string, name: string): (k: Option<nat>)
    ensures k.Some? ==> k.value + |name| < |t|
  {
    var bounds := Locate(t);
    if bounds.None? then None
    else ShiftKey(Key(t[bounds.value.start..bounds.value.end], name + ":"), bounds.value.start)
  }

  function RenameIn(t: string, from: string, to: string): Renamed {
    var k := KeyIn(t, from);
    if k.None? then Renamed(t, false) else Renamed(Replace(t, k.value, from, to), true)
  }

  function Rename(text: string, from: string, to: string): Renamed {
    if BOM <= text then
      var r := RenameIn(text[3..], from, to);
      if r.changed then Renamed(BOM + r.text, true) else Renamed(text, false)
    else RenameIn(text, from, to)
  }

  method FindKey(text: string, start: nat, end: nat, prefix: string) returns (k: Option<nat>)
    requires start <= end <= |text|
    ensures k == ShiftKey(Key(text[start..end], prefix), start)
  {
    hide Key, LineLength, Advance, FirstLine;
    var pos := start;
    while pos < end
      invariant start <= pos <= end + 1
      invariant pos <= end ==>
                ShiftKey(Key(text[start..end], prefix), start) == ShiftKey(Key(text[pos..end], prefix), pos)
      invariant pos > end ==> Key(text[start..end], prefix).None?
    {
      KeyStep(text[pos..end], prefix);
      var lineEnd := LineEndBefore(text, pos, end);
      if prefix <= text[pos..lineEnd] {
        return Some(pos);
      }
      if lineEnd < end { assert text[pos..end][lineEnd + 1 - pos..] == text[lineEnd + 1..end]; }
      pos := lineEnd + 1;
    }
    NoKeyInNothing(prefix);
    return None;
  }

  method LineEndBefore(text: string, pos: nat, end: nat) returns (lineEnd: nat)
    requires pos <= end <= |text|
    ensures lineEnd == pos + LineLength(text[pos..end]) && lineEnd <= end
    ensures text[pos..lineEnd] == FirstLine(text[pos..end])
  {
    lineEnd := pos;
    while lineEnd < end && text[lineEnd] != '\n'
      invariant pos <= lineEnd <= end && '\n' !in text[pos..lineEnd]
    {
      lineEnd := lineEnd + 1;
    }
    assert text[pos..end][..lineEnd - pos] == text[pos..lineEnd];
    LineLengthIs(text[pos..end], lineEnd - pos);
  }

  lemma NoKeyInNothing(prefix: string)
    ensures Key("", prefix).None?
  {
  }

  lemma NothingBefore(t: string, prefix: string)
    ensures Key(t[..0], prefix).None?
  {
  }

  lemma KeyStep(t: string, prefix: string)
    requires t != ""
    ensures Key(t, prefix) ==
              if prefix <= FirstLine(t) then Some(0)
              else if LineLength(t) == |t| then None
              else ShiftKey(Key(t[LineLength(t) + 1..], prefix), LineLength(t) + 1)
  {
  }

  lemma ReplaceBehindMark(text: string, offset: nat, k: nat, from: string, to: string)
    requires offset + k + |from| <= |text|
    ensures text[..offset + k] + to + text[offset + k + |from|..] ==
              text[..offset] + Replace(text[offset..], k, from, to)
  {
    assert text[offset + k + |from|..] == text[offset..][k + |from|..];
    assert text[..offset + k] == text[..offset] + text[offset..][..k];
  }

  lemma SliceBehind(text: string, offset: nat, a: nat, b: nat)
    requires a <= b && offset + b <= |text|
    ensures text[a + offset..b + offset] == text[offset..][a..b]
  {
  }

  method RenameFrontmatterField(text: string, from: string, to: string) returns (r: Renamed)
    ensures r == Rename(text, from, to)
  {
    hide Key, Locate, LineLength, Replace;
    var offset := 0;
    if BOM <= text {
      offset := 3;
    }
    var body := text[offset..];
    assert offset == 0 ==> body == text;
    var bounds := FrontmatterBounds(body);
    if bounds.None? {
      return Renamed(text, false);
    }
    var start, end := bounds.value.start + offset, bounds.value.end + offset;
    SliceBehind(text, offset, bounds.value.start, bounds.value.end);
    var pos := FindKey(text, start, end, from + ":");
    if pos.None? {
      return Renamed(text, false);
    }
    ReplaceBehindMark(text, offset, pos.value - offset, from, to);
    r := Renamed(text[..pos.value] + to + text[pos.value + |from|..], true);
  }

  /** A line of the text begins with the prefix. */
  ghost predicate LineBegins(t: string, j: nat, prefix: string) {
    j < |t| && AtLineStart(t, j) && prefix <= FirstLine(t[j..])
  }

  ghost predicate IsFirstLine(t: string, prefix: string, k: Option<nat>) {
    && (k.Some? ==> LineBegins(t, k.value, prefix))
    && (forall j: nat :: LineBegins(t, j, prefix) ==> k.Some? && k.value <= j)
  }

  /** The key is at the first line that begins with it, and is missing when no line does. */
  lemma {:induction false} KeyIsFirst(t: string, prefix: string)
    ensures IsFirstLine(t, prefix, Key(t, prefix))
    decreases |t|
  {
    hide Key, IsFirstLine, LineLength, FirstLine;
    if t == "" {
      NoKeyInNothing(prefix);
      NoLineInNothing(prefix);
    } else {
      KeyStep(t, prefix);
      if prefix <= FirstLine(t) {
        LineBeginsHere(t, prefix);
        FirstAtOnce(t, prefix);
      } else if LineLength(t) == |t| {
        FirstNowhere(t, prefix);
      } else {
        KeyIsFirst(t[LineLength(t) + 1..], prefix);
        FirstLater(t, prefix, Key(t[LineLength(t) + 1..], prefix));
      }
    }
  }

  /** The document has a block, and the line at `k` is the first of it that begins with the name and a colon. */
  ghost predicate NamedAt(t: string, name: string, k: nat) {
    && Locate(t).Some?
    && var b := Locate(t).value;
       && b.start <= k && LineBegins(t[b.start..b.end], k - b.start, name + ":")
       && forall j: nat :: j < k - b.start ==> !LineBegins(t[b.start..b.end], j, name + ":")
  }

  /** The byte order mark of a document, if it has one, before the rest. */
  predicate Leads(mark: string, t: string) {
    if BOM <= mark + t then mark == BOM else mark == ""
  }

  /** Behind a byte order mark or not, the first line of the block that names the field gets the new name in place of
      the old one, and no other byte changes; without a block or such a line the document stays as it is. */
  lemma RenameExactly(mark: string, t: string, from: string, to: string)
    requires Leads(mark, t)
    ensures forall k: nat :: NamedAt(t, from, k) ==>
              && k + |from| <= |t| && t[k..k + |from|] == from
              && Rename(mark + t, from, to) == Renamed(mark + t[..k] + to + t[k + |from|..], true)
    ensures (forall k: nat :: !NamedAt(t, from, k)) ==> Rename(mark + t, from, to) == Renamed(mark + t, false)
  {
    hide *;
    KeyExactly(t, from);
    RenameBehind(mark, t, from, to);
    if KeyIn(t, from).Some? { assert NamedAt(t, from, KeyIn(t, from).value); }
  }

  lemma RenameBehind(mark: string, t: string, from: string, to: string)
    requires Leads(mark, t)
    ensures var k := KeyIn(t, from);
            Rename(mark + t, from, to) ==
                if k.None? then Renamed(mark + t, false)
                else Renamed(mark + t[..k.value] + to + t[k.value + |from|..], true)
  {
    hide KeyIn;
    if mark == "" {
      assert mark + t == t;
    } else {
      assert (mark + t)[3..] == t;
    }
    var k := KeyIn(t, from);
    if k.Some? {
      assert mark + (t[..k.value] + to + t[k.value + |from|..]) == mark + t[..k.value] + to + t[k.value + |from|..];
    }
  }

  lemma KeyExactly(t: string, name: string)
    ensures forall k: nat :: NamedAt(t, name, k) <==> KeyIn(t, name) == Some(k)
    ensures KeyIn(t, name).Some? ==> t[KeyIn(t, name).value..KeyIn(t, name).value + |name|] == name
  {
    hide Locate, Key, LineLength, FirstLine;
    if Locate(t).Some? {
      var b := Locate(t).value;
      KeyIsFirst(t[b.start..b.end], name + ":");
      OneFirstLine(t, name);
    }
    if KeyIn(t, name).Some? { KeyInContent(t, name); }
  }

  lemma OneFirstLine(t: string, name: string)
    requires Locate(t).Some?
    requires var b := Locate(t).value; IsFirstLine(t[b.start..b.end], name + ":", Key(t[b.start..b.end], name + ":"))
    ensures forall k: nat :: NamedAt(t, name, k) <==> KeyIn(t, name) == Some(k)
  {
    hide Key, FirstLine, LineLength, Locate;
    var b := Locate(t).value;
    var block := t[b.start..b.end];
    var first := Key(block, name + ":");
    forall k: nat | NamedAt(t, name, k) ensures first == Some(k - b.start) {
      assert LineBegins(block, k - b.start, name + ":");
    }
    if first.Some? {
      assert LineBegins(block, first.value, name + ":");
      assert NamedAt(t, name, first.value + b.start);
    }
  }

  lemma NoLineInNothing(prefix: string)
    ensures IsFirstLine("", prefix, None)
  {
  }

  lemma FirstAtOnce(t: string, prefix: string)
    requires LineBegins(t, 0, prefix)
    ensures IsFirstLine(t, prefix, Some(0))
  {
  }

  lemma FirstNowhere(t: string, prefix: string)
    requires t != "" && !(prefix <= FirstLine(t)) && LineLength(t) == |t|
    ensures IsFirstLine(t, prefix, None)
  {
    hide LineLength, FirstLine;
    forall j: nat ensures !LineBegins(t, j, prefix) {
      if LineBegins(t, j, prefix) { NotInFirstLine(t, j, prefix); }
    }
  }

  lemma FirstLater(t: string, prefix: string, k: Option<nat>)
    requires t != "" && !(prefix <= FirstLine(t)) && LineLength(t) < |t|
    requires IsFirstLine(t[LineLength(t) + 1..], prefix, k)
    ensures IsFirstLine(t, prefix, ShiftKey(k, LineLength(t) + 1))
  {
    hide LineLength, FirstLine, LineBegins, IsFirstLine;
    var n := LineLength(t) + 1;
    forall j: nat | LineBegins(t, j, prefix) ensures j >= n { NotInFirstLine(t, j, prefix); }
    JoinHead(t, n);
    FirstAfter(t[..n], t[n..], prefix, k);
  }

  lemma JoinHead(t: string, n: nat)
    requires 0 < n <= |t|
    ensures t == t[..n] + t[n..] && t[..n] != "" && t[..n][n - 1] == t[n - 1]
  {
  }

  lemma FirstAfter(head: string, rest: string, prefix: string, k: Option<nat>)
    requires head != "" && head[|head| - 1] == '\n' && IsFirstLine(rest, prefix, k)
    requires forall j: nat :: LineBegins(head + rest, j, prefix) ==> j >= |head|
    ensures IsFirstLine(head + rest, prefix, ShiftKey(k, |head|))
  {
    hide LineBegins;
    if k.Some? { BeginsLater(head, rest, k.value, prefix); }
    forall j: nat | LineBegins(head + rest, j, prefix) ensures k.Some? && k.value + |head| <= j {
      BeginsLater(head, rest, j - |head|, prefix);
    }
  }

  lemma LineBeginsHere(t: string, prefix: string)
    requires t != ""
    ensures LineBegins(t, 0, prefix) <==> prefix <= FirstLine(t)
  {
    assert t[0..] == t;
  }

  lemma NotInFirstLine(t: string, j: nat, prefix: string)
    requires t != "" && !(prefix <= FirstLine(t)) && LineBegins(t, j, prefix)
    ensures LineLength(t) < j < |t|
  {
    hide FirstLine;
    LineBeginsHere(t, prefix);
    NoStartInside(t, j);
  }

  lemma BeginsLater(head: string, rest: string, j: nat, prefix: string)
    requires head != "" && head[|head| - 1] == '\n'
    ensures LineBegins(head + rest, j + |head|, prefix) <==> LineBegins(rest, j, prefix)
  {
    hide FirstLine;
    var t := head + rest;
    if j <= |rest| {
      assert t[j + |head|..] == rest[j..];
      if j > 0 { assert t[j + |head| - 1] == rest[j - 1]; }
    }
  }

  // ---- What renaming keeps

  lemma {:induction false} RunStops(name: string, tail: string, c: char)
    requires tail != "" && tail[0] != c
    ensures RunLength(name + tail, c) == RunLength(name, c)
  {
    if name == "" {
      assert name + tail == tail;
    } else if name[0] == c {
      assert (name + tail)[1..] == name[1..] + tail;
      RunStops(name[1..], tail, c);
    }
  }

  /** A key line opens a fence exactly as its name does, and is never a delimiter. */
  lemma KeyLine(name: string, rest: string)
    ensures var line := TrimCR(name + ":" + rest);
            FenceInfo(line) == FenceInfo(name) && line != "---"
  {
    var line := TrimCR(name + ":" + rest);
    var tail := ":" + TrimCR(rest);
    assert line == name + tail;
    if name != "" && (name[0] == '`' || name[0] == '~') { RunStops(name, tail, name[0]); }
    assert line[|name|] == ':';
  }

  /** What follows the first line of a block that holds a key. */
  lemma OneLineDown(s: string, open: Option<Fence>, prefix: string)
    requires Scan(s, open).Some? && Key(s[..Scan(s, open).value.end], prefix).Some?
    ensures var line, n := FirstLine(s), LineLength(s);
            && n < |s| && '\n' !in line && s == line + "\n" + s[n + 1..]
            && (var inner := Scan(s[n + 1..], AfterLine(open, TrimCR(line)));
                && inner.Some? && Scan(s, open) == Shift(inner, n + 1)
                && s[..Scan(s, open).value.end] == line + "\n" + s[n + 1..][..inner.value.end])
  {
    hide Scan, Key, LineLength, AfterLine, TrimCR;
    var n := LineLength(s);
    ScanUnfold(s, open);
    if Closes(open, TrimCR(FirstLine(s))) {
      NoKeyInNothing(prefix);
    } else if n < |s| {
      JoinLine(s);
      var inner := Scan(s[n + 1..], AfterLine(open, TrimCR(FirstLine(s))));
      JoinPrefix(FirstLine(s), s[n + 1..], inner.value.end);
    } else {
      NoScanInNothing(AfterLine(open, TrimCR(FirstLine(s))));
    }
  }

  lemma NoScanInNothing(open: Option<Fence>)
    ensures Scan("", open).None?
  {
  }

  lemma JoinPrefix(line: string, rest: string, end: nat)
    requires end <= |rest|
    ensures (line + "\n" + rest)[..end + |line| + 1] == line + "\n" + rest[..end]
  {
  }

  lemma ReplaceInFirstLine(line: string, rest: string, from: string, to: string)
    requires from + ":" <= line
    ensures Replace(line + "\n" + rest, 0, from, to) == to + ":" + line[|from| + 1..] + "\n" + rest
    ensures line == from + ":" + line[|from| + 1..]
  {
    assert line == from + ":" + line[|from| + 1..];
    assert (line + "\n" + rest)[|from|..] == ":" + line[|from| + 1..] + "\n" + rest;
  }

  lemma ReplaceLater(line: string, rest: string, k: nat, from: string, to: string)
    requires k + |from| <= |rest|
    ensures Replace(line + "\n" + rest, k + |line| + 1, from, to) == line + "\n" + Replace(rest, k, from, to)
  {
    var s := line + "\n" + rest;
    assert s[..k + |line| + 1] == line + "\n" + rest[..k];
    assert s[k + |line| + 1 + |from|..] == rest[k + |from|..];
  }

  /** A first line that is no delimiter. */
  lemma ScanPast(line: string, rest: string, open: Option<Fence>)
    requires '\n' !in line && !Closes(open, TrimCR(line))
    ensures Scan(line + "\n" + rest, open) == Shift(Scan(rest, AfterLine(open, TrimCR(line))), |line| + 1)
  {
    hide Scan, AfterLine, TrimCR, Closes, LineLength;
    SplitLine(line, rest);
    ScanUnfold(line + "\n" + rest, open);
  }

  lemma SameFenceAfter(open: Option<Fence>, from: string, to: string, tail: string)
    requires FenceInfo(from) == FenceInfo(to)
    ensures var line, line1 := TrimCR(from + ":" + tail), TrimCR(to + ":" + tail);
            AfterLine(open, line) == AfterLine(open, line1) && !Closes(open, line) && !Closes(open, line1)
  {
    hide FenceInfo, TrimCR;
    KeyLine(from, tail);
    KeyLine(to, tail);
  }

  /** Renaming a key inside the block moves its end by the difference in length, and changes no fence. */
  lemma {:induction false} RenameMovesBlock(s: string, open: Option<Fence>, from: string, to: string, k: nat)
    requires Scan(s, open).Some? && Key(s[..Scan(s, open).value.end], from + ":") == Some(k)
    requires '\n' !in to && FenceInfo(from) == FenceInfo(to)
    ensures k + |from| < Scan(s, open).value.end
    ensures Scan(Replace(s, k, from, to), open) ==
              Some(Block(Scan(s, open).value.end + |to| - |from|, Scan(s, open).value.next + |to| - |from|))
    decreases |s|
  {
    hide Scan, Key, AfterLine, LineLength, FirstLine, TrimCR, FenceInfo, Replace, Closes;
    OneLineDown(s, open, from + ":");
    var line, rest := FirstLine(s), s[LineLength(s) + 1..];
    var open1 := AfterLine(open, TrimCR(line));
    var inner := Scan(rest, open1).value;
    var body := rest[..inner.end];
    SplitLine(line, body);
    KeyStep(line + "\n" + body, from + ":");
    if from + ":" <= line {
      MovesHere(line, rest, open, from, to);
    } else {
      RenameMovesBlock(rest, open1, from, to, k - |line| - 1);
      NotClosing(s, open, line, from + ":");
      MovesLater(line, rest, open, from, to, k - |line| - 1);
    }
  }

  lemma MovesHere(line: string, rest: string, open: Option<Fence>, from: string, to: string)
    requires '\n' !in line && '\n' !in to && from + ":" <= line && FenceInfo(from) == FenceInfo(to)
    ensures Scan(Replace(line + "\n" + rest, 0, from, to), open) ==
              Shift(Scan(rest, AfterLine(open, TrimCR(line))), |line| + 1 + |to| - |from|)
  {
    hide Scan, AfterLine, TrimCR, FenceInfo, Replace, Closes;
    var tail := line[|from| + 1..];
    ReplaceInFirstLine(line, rest, from, to);
    SameFenceAfter(open, from, to, tail);
    ScanPast(to + ":" + tail, rest, open);
  }

  lemma MovesLater(line: string, rest: string, open: Option<Fence>, from: string, to: string, k: nat)
    requires '\n' !in line && !Closes(open, TrimCR(line)) && k + |from| <= |rest|
    ensures Scan(Replace(line + "\n" + rest, k + |line| + 1, from, to), open) ==
              Shift(Scan(Replace(rest, k, from, to), AfterLine(open, TrimCR(line))), |line| + 1)
  {
    hide Scan, AfterLine, TrimCR, Replace, Closes;
    ReplaceLater(line, rest, k, from, to);
    ScanPast(line, Replace(rest, k, from, to), open);
  }

  lemma NotClosing(s: string, open: Option<Fence>, line: string, prefix: string)
    requires Scan(s, open).Some? && Key(s[..Scan(s, open).value.end], prefix).Some? && line == FirstLine(s)
    ensures !Closes(open, TrimCR(line))
  {
    hide Key, TrimCR, FirstLine;
    NoKeyInNothing(prefix);
  }

  // ---- Renaming back

  /** A key is found whole, and its name is part of one line. */
  lemma KeyContent(t: string, name: string)
    requires Key(t, name + ":").Some?
    ensures var k := Key(t, name + ":").value; t[k..k + |name|] == name
    ensures '\n' !in name
  {
    hide Key, FirstLine;
    KeyIsFirst(t, name + ":");
    var k := Key(t, name + ":").value;
    LineStarts(t[k..], name);
    assert t[k..k + |name|] == t[k..][..|name|];
  }

  lemma LineStarts(u: string, name: string)
    requires name + ":" <= FirstLine(u)
    ensures |name| <= |u| && u[..|name|] == name && '\n' !in name
  {
    hide LineLength;
    var line := FirstLine(u);
    assert line[..|name|] == (name + ":")[..|name|] == name;
    assert u[..|name|] == line[..|name|];
    assert forall i :: 0 <= i < |name| ==> name[i] == line[i];
  }

  /** No name with a line break is ever found. */
  lemma NoKeyAcrossLines(t: string, name: string)
    requires '\n' in name
    ensures Key(t, name + ":").None?
  {
    if Key(t, name + ":").Some? { KeyContent(t, name); }
  }

  lemma KeyPast(line: string, rest: string, prefix: string)
    requires '\n' !in line
    ensures Key(line + "\n" + rest, prefix) ==
              if prefix <= line then Some(0) else ShiftKey(Key(rest, prefix), |line| + 1)
  {
    hide Key, LineLength;
    SplitLine(line, rest);
    KeyStep(line + "\n" + rest, prefix);
  }

  /** When an earlier line begins with the new name, renaming back changes that line instead. */
  lemma {:induction false} EarlierKeyDiffers(t: string, from: string, to: string, k: nat, k0: nat)
    requires Key(t, from + ":") == Some(k) && Key(t[..k], to + ":") == Some(k0) && from != to
    ensures k0 + |to| <= |Replace(t, k, from, to)| && Replace(Replace(t, k, from, to), k0, to, from) != t
    decreases |t|
  {
    hide Key, LineLength, FirstLine, Replace;
    KeyContent(t, from);
    KeyStep(t, from + ":");
    if from + ":" <= FirstLine(t) {
      NothingBefore(t, to + ":");
    } else {
      JoinLine(t);
      var line, rest := FirstLine(t), t[LineLength(t) + 1..];
      var k1 := k - |line| - 1;
      JoinPrefix(line, rest, k1);
      KeyPast(line, rest[..k1], to + ":");
      ReplaceLater(line, rest, k1, from, to);
      var rest1 := Replace(rest, k1, from, to);
      if to + ":" <= line {
        ReplaceInFirstLine(line, rest1, to, from);
        OtherFirstLine(line, rest, from + ":" + line[|to| + 1..], rest1);
      } else {
        EarlierKeyDiffers(rest, from, to, k1, k0 - |line| - 1);
        ReplaceLater(line, rest1, k0 - |line| - 1, to, from);
        SameLineSameRest(line, rest, Replace(rest1, k0 - |line| - 1, to, from));
      }
    }
  }

  lemma SameLineSameRest(line: string, a: string, b: string)
    ensures line + "\n" + a == line + "\n" + b ==> a == b
  {
    assert (line + "\n" + a)[|line| + 1..] == a && (line + "\n" + b)[|line| + 1..] == b;
  }

  lemma OtherFirstLine(line: string, rest: string, line1: string, rest1: string)
    requires '\n' !in line && '\n' !in line1 && line != line1
    ensures line + "\n" + rest != line1 + "\n" + rest1
  {
    SplitLine(line, rest);
    SplitLine(line1, rest1);
  }

  // ---- The main results

  lemma ReplaceInside(head: string, body: string, post: string, k: nat, from: string, to: string)
    requires k + |from| <= |body|
    ensures Replace(head + body + post, |head| + k, from, to) == head + Replace(body, k, from, to) + post
  {
    var t := head + body + post;
    assert t[..|head| + k] == head + body[..k];
    assert t[|head| + k + |from|..] == body[k + |from|..] + post;
  }

  /** The document as its opening line, its block, and the rest. */
  lemma Parts(t: string)
    requires Locate(t).Some?
    ensures var b, line := Locate(t).value, FirstLine(t);
            && TrimCR(line) == "---" && '\n' !in line && b.start == |line| + 1 && t == line + "\n" + t[b.start..]
            && Scan(t[b.start..], None) == Some(Block(b.end - b.start, b.next - b.start))
            && t[b.start..b.end] == t[b.start..][..b.end - b.start]
  {
    hide Scan, TrimCR, LineLength;
    NoScanInNothing(None);
    if LineLength(t) < |t| { JoinLine(t); }
  }

  lemma LocateFrom(line: string, s: string)
    requires '\n' !in line && TrimCR(line) == "---" && Scan(s, None).Some?
    ensures Locate(line + "\n" + s) ==
              Some(Bounds(|line| + 1, Scan(s, None).value.end + |line| + 1, Scan(s, None).value.next + |line| + 1))
  {
    hide Scan, TrimCR, LineLength;
    SplitLine(line, s);
  }

  /** The rename moves the end of the block by the difference of the names' lengths, and nothing before the key. */
  lemma RenameMovesEnd(t: string, from: string, to: string)
    requires KeyIn(t, from).Some? && '\n' !in to && FenceInfo(from) == FenceInfo(to)
    ensures var b := Locate(t).value;
            && b.start <= KeyIn(t, from).value && KeyIn(t, from).value + |from| < b.end
            && Locate(RenameIn(t, from, to).text) == Some(Bounds(b.start, b.end + |to| - |from|,
                                                                 b.next + |to| - |from|))
  {
    hide Scan, Key, TrimCR, FenceInfo, Replace, Locate, FirstLine;
    Parts(t);
    var b, line := Locate(t).value, FirstLine(t);
    var s := t[b.start..];
    var k := Key(t[b.start..b.end], from + ":").value;
    RenameMovesBlock(s, None, from, to, k);
    ReplaceLater(line, s, k, from, to);
    LocateFrom(line, Replace(s, k, from, to));
  }

  /** The line with its leading `from` replaced. */
  function RenamedLine(line: string, from: string, to: string): string {
    if from <= line then to + line[|from|..] else line
  }

  /** What follows the line at `k` holds a delimiter outside every fence, with the fence that the line leaves open
      once it is renamed. */
  predicate Recloses(s: string, open: Option<Fence>, k: nat, from: string, to: string)
    requires k <= |s|
  {
    var line := RenamedLine(FirstLine(s[k..]), from, to);
    Scan(s[k + Advance(s[k..])..], AfterLine(FenceAt(s, open, k), TrimCR(line))).Some?
  }

  /** The names are equal; or the new name breaks no line, begins no frontmatter line before the renamed one, and leaves
      open no fence that hides every delimiter after it. */
  predicate Restorable(t: string, from: string, to: string) {
    KeyIn(t, from).Some? ==>
      || from == to
      || (&& '\n' !in to
          && Key(t[Locate(t).value.start..KeyIn(t, from).value], to + ":").None?
          && Recloses(t[Locate(t).value.start..], None, KeyIn(t, from).value - Locate(t).value.start, from, to))
  }

  /** A block is found after the rename exactly when a delimiter closes what follows the renamed line. */
  lemma {:induction false} RenameRecloses(s: string, open: Option<Fence>, from: string, to: string, k: nat)
    requires Scan(s, open).Some? && Key(s[..Scan(s, open).value.end], from + ":") == Some(k) && '\n' !in to
    ensures k + |from| < Scan(s, open).value.end
    ensures Scan(Replace(s, k, from, to), open).Some? <==> Recloses(s, open, k, from, to)
    decreases |s|
  {
    hide Scan, Key, AfterLine, LineLength, FirstLine, TrimCR, FenceInfo, Replace, Closes, Recloses;
    OneLineDown(s, open, from + ":");
    var line, rest := FirstLine(s), s[LineLength(s) + 1..];
    var open1 := AfterLine(open, TrimCR(line));
    var body := rest[..Scan(rest, open1).value.end];
    SplitLine(line, body);
    KeyStep(line + "\n" + body, from + ":");
    if from + ":" <= line {
      ReclosesHere(line, rest, open, from, to);
    } else {
      var k1 := k - |line| - 1;
      RenameRecloses(rest, open1, from, to, k1);
      NotClosing(s, open, line, from + ":");
      ReclosesLater(line, rest, open, from, to, k1);
    }
  }

  lemma ReclosesHere(line: string, rest: string, open: Option<Fence>, from: string, to: string)
    requires '\n' !in line && '\n' !in to && from + ":" <= line
    ensures var s := line + "\n" + rest;
            Scan(Replace(s, 0, from, to), open).Some? <==> Recloses(s, open, 0, from, to)
  {
    hide Scan, AfterLine, TrimCR, FenceInfo, Replace, Closes, LineLength, FirstLine;
    var s, tail := line + "\n" + rest, line[|from| + 1..];
    ReplaceInFirstLine(line, rest, from, to);
    NeverCloses(open, to, tail);
    ScanPast(to + ":" + tail, rest, open);
    SplitLine(line, rest);
    assert s[0..] == s && RenamedLine(line, from, to) == to + ":" + tail;
  }

  lemma ReclosesLater(line: string, rest: string, open: Option<Fence>, from: string, to: string, k: nat)
    requires '\n' !in line && !Closes(open, TrimCR(line)) && k + |from| <= |rest|
    requires var open1 := AfterLine(open, TrimCR(line));
             Scan(Replace(rest, k, from, to), open1).Some? <==> Recloses(rest, open1, k, from, to)
    ensures var s, k0 := line + "\n" + rest, k + |line| + 1;
            Scan(Replace(s, k0, from, to), open).Some? <==> Recloses(s, open, k0, from, to)
  {
    hide Scan, AfterLine, TrimCR, Replace, Closes, FirstLine, FenceAt, RenamedLine, Advance;
    ReplaceLater(line, rest, k, from, to);
    ScanPast(line, Replace(rest, k, from, to), open);
    FenceLater(line, rest, open, k);
    SliceLater(line, rest, k);
    SliceLater(line, rest, k + Advance(rest[k..]));
  }

  lemma SliceLater(line: string, rest: string, k: nat)
    requires k <= |rest|
    ensures (line + "\n" + rest)[k + |line| + 1..] == rest[k..]
  {
  }

  lemma FenceLater(line: string, rest: string, open: Option<Fence>, k: nat)
    requires '\n' !in line
    ensures FenceAt(line + "\n" + rest, open, k + |line| + 1) == FenceAt(rest, AfterLine(open, TrimCR(line)), k)
  {
    hide AfterLine, TrimCR, LineLength;
    SplitLine(line, rest);
  }

  lemma LocatesAgain(t: string, from: string, to: string)
    requires KeyIn(t, from).Some? && '\n' !in to
    ensures var start, p := Locate(t).value.start, KeyIn(t, from).value;
            start <= p && (Locate(RenameIn(t, from, to).text).Some? <==> Recloses(t[start..], None, p - start, from,
                    to))
  {
    hide Scan, Key, TrimCR, FenceInfo, Replace, Locate, FirstLine, Recloses;
    Parts(t);
    var b, line, p := Locate(t).value, FirstLine(t), KeyIn(t, from).value;
    var s, k := t[b.start..], p - b.start;
    RenameRecloses(s, None, from, to, k);
    ReplaceLater(line, s, k, from, to);
    LocateOnly(line, Replace(s, k, from, to));
  }

  /** However the fences change, a block found after the rename reaches beyond the renamed line, and the new name is
      found at an earlier line that already began with it, or else at the renamed one. */
  lemma {:induction false} FoundInBlock(s: string, open: Option<Fence>, from: string, to: string, k: nat)
    requires Scan(s, open).Some? && Key(s[..Scan(s, open).value.end], from + ":") == Some(k) && '\n' !in to
    ensures k + |from| < Scan(s, open).value.end
    ensures Scan(Replace(s, k, from, to), open).Some? ==>
              var s1 := Replace(s, k, from, to);
              Key(s1[..Scan(s1, open).value.end], to + ":") ==
                if Key(s[..k], to + ":").Some? then Key(s[..k], to + ":") else Some(k)
    decreases |s|
  {
    hide Scan, Key, AfterLine, LineLength, FirstLine, TrimCR, FenceInfo, Replace, Closes;
    OneLineDown(s, open, from + ":");
    var line, rest := FirstLine(s), s[LineLength(s) + 1..];
    var open1 := AfterLine(open, TrimCR(line));
    var body := rest[..Scan(rest, open1).value.end];
    SplitLine(line, body);
    KeyStep(line + "\n" + body, from + ":");
    if from + ":" <= line {
      NothingBefore(s, to + ":");
      FoundAtOnce(line, rest, open, from, to);
    } else {
      FoundInBlock(rest, open1, from, to, k - |line| - 1);
      NotClosing(s, open, line, from + ":");
      FoundLater(line, rest, open, from, to, k - |line| - 1);
    }
  }

  lemma FoundAtOnce(line: string, rest: string, open: Option<Fence>, from: string, to: string)
    requires '\n' !in line && '\n' !in to && from + ":" <= line
    ensures var s1 := Replace(line + "\n" + rest, 0, from, to);
            Scan(s1, open).Some? ==> Key(s1[..Scan(s1, open).value.end], to + ":") == Some(0)
  {
    hide Scan, Key, AfterLine, TrimCR, FenceInfo, Replace, Closes, LineLength, FirstLine;
    var tail := line[|from| + 1..];
    ReplaceInFirstLine(line, rest, from, to);
    var line1 := to + ":" + tail;
    NeverCloses(open, to, tail);
    ScanPast(line1, rest, open);
    var inner := Scan(rest, AfterLine(open, TrimCR(line1)));
    if inner.Some? {
      JoinPrefix(line1, rest, inner.value.end);
      KeyPast(line1, rest[..inner.value.end], to + ":");
    }
  }

  lemma NeverCloses(open: Option<Fence>, name: string, tail: string)
    ensures !Closes(open, TrimCR(name + ":" + tail))
  {
    hide TrimCR, FenceInfo;
    KeyLine(name, tail);
  }

  lemma FoundLater(line: string, rest: string, open: Option<Fence>, from: string, to: string, k: nat)
    requires '\n' !in line && !Closes(open, TrimCR(line)) && k + |from| <= |rest|
    requires var open1, rest1 := AfterLine(open, TrimCR(line)), Replace(rest, k, from, to);
             Scan(rest1, open1).Some? ==>
               Key(rest1[..Scan(rest1, open1).value.end], to + ":") ==
                 if Key(rest[..k], to + ":").Some? then Key(rest[..k], to + ":") else Some(k)
    ensures var s, k0 := line + "\n" + rest, k + |line| + 1;
            var s1 := Replace(s, k0, from, to);
            Scan(s1, open).Some? ==>
              Key(s1[..Scan(s1, open).value.end], to + ":") ==
                if Key(s[..k0], to + ":").Some? then Key(s[..k0], to + ":") else Some(k0)
  {
    hide Scan, Key, AfterLine, TrimCR, Replace, Closes;
    var rest1 := Replace(rest, k, from, to);
    ReplaceLater(line, rest, k, from, to);
    ScanPast(line, rest1, open);
    JoinPrefix(line, rest, k);
    KeyPast(line, rest[..k], to + ":");
    var inner := Scan(rest1, AfterLine(open, TrimCR(line)));
    if inner.Some? {
      JoinPrefix(line, rest1, inner.value.end);
      KeyPast(line, rest1[..inner.value.end], to + ":");
    }
  }

  /** Where the new name is found after the rename. */
  lemma FoundAfterRename(t: string, from: string, to: string)
    requires KeyIn(t, from).Some? && '\n' !in to && Locate(RenameIn(t, from, to).text).Some?
    ensures var start, p := Locate(t).value.start, KeyIn(t, from).value;
            KeyIn(RenameIn(t, from, to).text, to) ==
              if Key(t[start..p], to + ":").Some? then ShiftKey(Key(t[start..p], to + ":"), start) else Some(p)
  {
    hide Scan, Key, TrimCR, FenceInfo, Replace, Locate, FirstLine;
    Parts(t);
    var b, line, p := Locate(t).value, FirstLine(t), KeyIn(t, from).value;
    var s, k := t[b.start..], p - b.start;
    FoundInBlock(s, None, from, to, k);
    ReplaceLater(line, s, k, from, to);
    var s1 := Replace(s, k, from, to);
    LocateOnly(line, s1);
    LocateFrom(line, s1);
    var end1 := Scan(s1, None).value.end;
    BlockBehind(line, s1, end1);
    TailSlice(t, b.start, k);
  }

  /** Behind an opening line, the block is found exactly when the scan finds its end. */
  lemma LocateOnly(line: string, s: string)
    requires '\n' !in line && TrimCR(line) == "---"
    ensures Locate(line + "\n" + s).Some? <==> Scan(s, None).Some?
  {
    hide Scan, TrimCR, LineLength;
    SplitLine(line, s);
  }

  lemma ReplaceLength(s: string, k: nat, from: string, to: string)
    requires k + |from| <= |s|
    ensures |Replace(s, k, from, to)| == |s| + |to| - |from|
  {
  }

  lemma ReplaceBack(s: string, k: nat, from: string, to: string)
    requires k + |from| <= |s| && s[k..k + |from|] == from
    ensures k + |to| <= |Replace(s, k, from, to)|
    ensures Replace(Replace(s, k, from, to), k, to, from) == s
  {
  }

  lemma ReplaceDiffers(s: string, k: nat, from: string, to: string)
    requires k + |from| <= |s| && s[k..k + |from|] == from && from != to
    ensures Replace(s, k, from, to) != s
  {
    ReplaceLength(s, k, from, to);
    assert Replace(s, k, from, to)[k..k + |to|] == to;
  }

  lemma SliceInside(t: string, a: nat, b: nat, k: nat, n: nat)
    requires a <= b <= |t| && a + k + n <= b
    ensures t[a..b][k..k + n] == t[a + k..a + k + n]
  {
    var x, y := t[a..b][k..k + n], t[a + k..a + k + n];
    assert |x| == |y| && forall i :: 0 <= i < n ==> x[i] == y[i];
  }

  lemma KeyInContent(t: string, name: string)
    requires KeyIn(t, name).Some?
    ensures var p := KeyIn(t, name).value; p + |name| <= |t| && t[p..p + |name|] == name && '\n' !in name
  {
    hide Key, Locate;
    var b := Locate(t).value;
    var body := t[b.start..b.end];
    KeyContent(body, name);
    var k := Key(body, name + ":").value;
    SliceInside(t, b.start, b.end, k, |name|);
  }

  lemma NoKeyIn(t: string, name: string)
    requires '\n' in name
    ensures KeyIn(t, name).None?
  {
    hide Key;
    var b := Locate(t);
    if b.Some? { NoKeyAcrossLines(t[b.value.start..b.value.end], name); }
  }

  /** Renaming a key and renaming it back restores the document exactly when the rename is restorable. */
  lemma RenameBackIn(t: string, from: string, to: string)
    requires KeyIn(t, from).Some?
    ensures var back := RenameIn(RenameIn(t, from, to).text, to, from);
            && (back.text == t <==> Restorable(t, from, to))
            && (Restorable(t, from, to) ==> back.changed)
  {
    hide Key, FenceInfo, Replace, Locate, KeyIn, Recloses;
    var p := KeyIn(t, from).value;
    var t1 := Replace(t, p, from, to);
    KeyInContent(t, from);
    ReplaceBack(t, p, from, to);
    if from == to {
      ReplaceSame(t, p, from);
    } else {
      ReplaceDiffers(t, p, from, to);
      if '\n' in to {
        NoKeyIn(t1, to);
      } else {
        LocatesAgain(t, from, to);
        if Locate(t1).None? {
          NoKeyUnlocated(t1, to);
        } else {
          FoundAfterRename(t, from, to);
          if !Restorable(t, from, to) { EarlierDiffers(t, from, to); }
        }
      }
    }
  }

  lemma NoKeyUnlocated(t: string, name: string)
    requires Locate(t).None?
    ensures KeyIn(t, name).None?
  {
  }

  lemma ReplaceSame(t: string, p: nat, name: string)
    requires p + |name| <= |t| && t[p..p + |name|] == name
    ensures Replace(t, p, name, name) == t
  {
  }

  lemma EarlierDiffers(t: string, from: string, to: string)
    requires KeyIn(t, from).Some? && '\n' !in to && Locate(RenameIn(t, from, to).text).Some? && from != to
    requires Key(t[Locate(t).value.start..KeyIn(t, from).value], to + ":").Some?
    ensures RenameIn(RenameIn(t, from, to).text, to, from).text != t
  {
    hide Key, Replace, Locate;
    FoundAfterRename(t, from, to);
    var b, p := Locate(t).value, KeyIn(t, from).value;
    var body, k := t[b.start..b.end], p - b.start;
    var head, post := t[..b.start], t[b.end..];
    SliceFromStart(t, b.start, b.end, k);
    var k0 := Key(body[..k], to + ":").value;
    EarlierKeyDiffers(body, from, to, k, k0);
    assert t == head + body + post;
    ReplaceInside(head, body, post, k, from, to);
    ReplaceInside(head, Replace(body, k, from, to), post, k0, to, from);
    SameParts(head, body, Replace(Replace(body, k, from, to), k0, to, from), post);
  }

  lemma TailSlice(t: string, a: nat, k: nat)
    requires a + k <= |t|
    ensures t[a..][..k] == t[a..a + k]
  {
  }

  lemma BlockBehind(line: string, s: string, end: nat)
    requires end <= |s|
    ensures (line + "\n" + s)[|line| + 1..end + |line| + 1] == s[..end]
  {
  }

  lemma SliceFromStart(t: string, a: nat, b: nat, k: nat)
    requires a + k <= b <= |t|
    ensures t[a..b][..k] == t[a..a + k]
  {
  }

  lemma SameParts(head: string, a: string, b: string, post: string)
    ensures head + a + post == head + b + post ==> a == b
  {
    if head + a + post == head + b + post {
      assert |a| == |b|;
      assert (head + a + post)[|head|..|head| + |a|] == a && (head + b + post)[|head|..|head| + |b|] == b;
    }
  }

  /** The same for a whole document, with or without a byte order mark. */
  lemma RenameBack(text: string, from: string, to: string)
    requires Rename(text, from, to).changed
    ensures var back := Rename(Rename(text, from, to).text, to, from);
            && (back.text == text <==> Restorable(if BOM <= text then text[3..] else text, from, to))
            && (back.text == text ==> back.changed)
  {
    hide RenameIn, Restorable;
    if BOM <= text {
      var body := text[3..];
      assert text == BOM + body;
      ChangedHasKey(body, from, to);
      RenameBackIn(body, from, to);
      MarkStays(RenameIn(body, from, to).text, to, from);
      assert forall r: string :: (BOM + r)[3..] == r;
    } else {
      ChangedHasKey(text, from, to);
      RenameBackIn(text, from, to);
      NoMarkAppears(text, from, to);
    }
  }

  lemma ChangedHasKey(t: string, from: string, to: string)
    requires RenameIn(t, from, to).changed
    ensures KeyIn(t, from).Some?
  {
  }

  lemma MarkStays(t: string, from: string, to: string)
    ensures var r := RenameIn(t, from, to);
            Rename(BOM + t, from, to) == Renamed(BOM + r.text, r.changed)
  {
    assert (BOM + t)[3..] == t;
  }

  /** A document that opens with a delimiter goes on opening with it. */
  lemma NoMarkAppears(t: string, from: string, to: string)
    requires RenameIn(t, from, to).changed
    ensures !(BOM <= RenameIn(t, from, to).text)
  {
    hide Key, Scan, LineLength;
    Parts(t);
    var line := FirstLine(t);
    assert line[0] == '-' && t[0] == line[0];
    var t1 := RenameIn(t, from, to).text;
    assert KeyIn(t, from).value >= |line| + 1;
    assert t1[0] == t[0];
  }

  /** A name that opens a fence can hide the closing delimiter, and then renaming back finds no block. */
  lemma FenceNameLosesBlock()
    ensures RenameIn(DOCUMENT, "a", "```").changed && Locate(RenameIn(DOCUMENT, "a", "```").text).None?
  {
    hide Locate, KeyIn, Replace, Scan, LineLength, FenceInfo;
    var s, s1 := "a:" + "\n" + CLOSING, "```:" + "\n" + CLOSING;
    ScanDelimiter();
    PlainLine();
    KeyBehindOpening(s);
    RenamedOpening(s, s1);
    Unclosed();
    NotLocated(s1);
  }

  const DOCUMENT := "---" + "\n" + ("a:" + "\n" + CLOSING)

  lemma PlainLine()
    ensures Scan("a:" + "\n" + CLOSING, None) == Some(Block(3, 7))
  {
    hide Scan, LineLength;
    ScanDelimiter();
    assert FenceInfo("a:").None?;
    ScanPast("a:", CLOSING, None);
  }

  const CLOSING := "---" + "\n" + ""

  lemma KeyBehindOpening(s: string)
    requires s == "a:" + "\n" + CLOSING && Scan(s, None) == Some(Block(3, 7))
    ensures KeyIn("---" + "\n" + s, "a") == Some(4)
  {
    hide Scan, Key, Locate;
    var t := "---" + "\n" + s;
    LocateFrom("---", s);
    FirstKey("a:", "a");
    assert t[4..7] == "a:" + "\n" + "";
  }

  lemma RenamedOpening(s: string, s1: string)
    requires s == "a:" + "\n" + CLOSING && s1 == "```:" + "\n" + CLOSING
    ensures Replace("---" + "\n" + s, 4, "a", "```") == "---" + "\n" + s1
  {
    assert s1 == "```" + s[1..];
  }

  lemma NotLocated(s: string)
    requires Scan(s, None).None?
    ensures Locate("---" + "\n" + s).None?
  {
    hide Scan;
    SplitLine("---", s);
  }

  lemma FirstKey(line: string, from: string)
    requires line == from + ":" && '\n' !in line
    ensures Key(line + "\n" + "", from + ":") == Some(0)
  {
    SplitLine(line, "");
  }

  lemma ScanDelimiter()
    ensures Scan(CLOSING, None) == Some(Block(0, 4)) && Scan(CLOSING, Some(Fence('`', 3))).None?
  {
    SplitLine("---", "");
    assert FenceInfo("---").None?;
  }

  lemma Unclosed()
    ensures Scan("```:" + "\n" + CLOSING, None).None?
  {
    ScanDelimiter();
    assert TrimCR("```:") == "```:";
    assert "```:" == "```" + ":";
    RunStops("```", ":", '`');
    assert "```"[1..] == "``" && "``"[1..] == "`" && "`"[1..] == "";
    assert RunLength("```", '`') == 3;
    assert FenceInfo("```:") == Some(Fence('`', 3));
    SplitLine("```:", CLOSING);
  }
}
