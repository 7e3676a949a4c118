/** Section paths and selectors: printing, parsing and matching (internal/extract/body_source.go, body.go). */
module Selectors {
  import opened Quoting
  import opened Wrappers

  datatype HeadingKey = HeadingKey(level: int, text: string)

  type SectionPath = seq<HeadingKey>

  type Selector = seq<HeadingKey>

  const PREFIX := "body.section"

  function Hashes(n: nat): (r: string)
    ensures |r| == n && forall i :: 0 <= i < n ==> r[i] == '#'
  {
    seq(n, i => '#')
  }

  predicate ValidKey(key: HeadingKey) {
    1 <= key.level <= 6
  }

  function ExactHeading(key: HeadingKey): string
    requires ValidKey(key)
  {
    Hashes(key.level) + " " + key.text
  }

  function CountHashes(s: string): (n: nat)
    ensures n <= |s| && (forall i :: 0 <= i < n ==> s[i] == '#') && (n < |s| ==> s[n] != '#')
  {
    if s != "" && s[0] == '#' then 1 + CountHashes(s[1..]) else 0
  }

  function ParseHeadingKey(heading: string): Option<HeadingKey> {
    var level := CountHashes(heading);
    if level < 1 || level > 6 || level >= |heading| || heading[level] != ' ' then None
    else Some(HeadingKey(level, heading[level + 1..]))
  }

  lemma ParseExactHeading(key: HeadingKey)
    requires ValidKey(key)
    ensures ParseHeadingKey(ExactHeading(key)) == Some(key)
  {
    var h := ExactHeading(key);
    assert h[key.level] == ' ' && forall i :: 0 <= i < key.level ==> h[i] == '#';
    assert CountHashes(h) == key.level;
    assert h[key.level + 1..] == key.text;
  }

  /** What is checked before a selector is printed: the heading of each key must also parse back to it. */
  predicate Accepted(sel: Selector) {
    && sel != []
    && (forall i :: 0 <= i < |sel| ==> ValidKey(sel[i]) && ParseHeadingKey(ExactHeading(sel[i])) == Some(sel[i]))
    && (forall i :: 0 < i < |sel| ==> sel[i - 1].level < sel[i].level)
  }

  /** A non-empty list of headings of levels 1 to 6, strictly increasing. */
  predicate Valid(sel: Selector) {
    && sel != []
    && (forall i :: 0 <= i < |sel| ==> ValidKey(sel[i]))
    && (forall i :: 0 < i < |sel| ==> sel[i - 1].level < sel[i].level)
  }

  /** The parse-back check never refuses anything that the level checks accept. */
  lemma AcceptedIffValid(sel: Selector)
    ensures Accepted(sel) <==> Valid(sel)
  {
    if Valid(sel) {
      forall i | 0 <= i < |sel| ensures ParseHeadingKey(ExactHeading(sel[i])) == Some(sel[i]) {
        ParseExactHeading(sel[i]);
      }
    }
  }

  // ---- Printing

  function Brackets(sel: Selector, printable: char -> bool): string
    requires forall i :: 0 <= i < |sel| ==> ValidKey(sel[i])
  {
    if sel == [] then ""
    else "[" + Quote(ExactHeading(sel[0]), printable) + "]" + Brackets(sel[1..], printable)
  }

  function Print(sel: Selector, printable: char -> bool): Option<string> {
    if Accepted(sel) then Some(PREFIX + Brackets(sel, printable)) else None
  }

  method CanonicalSectionSelectorSource(sel: Selector, printable: char -> bool) returns (source: Option<string>)
    ensures source == Print(sel, printable)
  {
    if !Accepted(sel) {
      return None;
    }
    hide Quote, ExactHeading, Accepted;
    var text := PREFIX;
    for i := 0 to |sel|
      invariant text + Brackets(sel[i..], printable) == PREFIX + Brackets(sel, printable)
    {
      BracketsStep(sel, i, printable, text);
      text := text + "[";
      text := text + Quote(ExactHeading(sel[i]), printable);
      text := text + "]";
    }
    assert sel[|sel|..] == [] && text + "" == text;
    return Some(text);
  }

  lemma BracketsStep(sel: Selector, i: nat, printable: char -> bool, text: string)
    requires i < |sel| && forall k :: 0 <= k < |sel| ==> ValidKey(sel[k])
    ensures text + Brackets(sel[i..], printable) ==
            text + "[" + Quote(ExactHeading(sel[i]), printable) + "]" + Brackets(sel[i + 1..], printable)
  {
    hide Quote, ExactHeading;
    assert sel[i..][0] == sel[i] && sel[i..][1..] == sel[i + 1..];
  }

  // ---- Parsing

  /** One bracketed literal at the front of `rest`: the text between the quotes and what follows the bracket. */
  function ParseBracket(rest: string): (r: Option<(string, string)>)
    ensures r.Some? ==> |r.value.1| < |rest|
  {
    if |rest| < 4 || rest[0] != '[' || (rest[1] != '"' && rest[1] != '`') then None
    else
      var end := QuotedEnd(rest[1..]);
      if end < 0 || end + 2 >= |rest| || rest[end + 2] != ']' then None
      else
        var heading := Unquote(rest[1..end + 2]);
        if heading.None? then None else Some((heading.value, rest[end + 3..]))
  }

  /** The keys that follow those of `sel`, each deeper than the one before. */
  function ParseFrom(rest: string, sel: Selector): Option<Selector>
    decreases |rest|
  {
    if rest == "" then (if sel == [] then None else Some(sel))
    else
      var head := ParseBracket(rest);
      if head.None? then None
      else
        var key := ParseHeadingKey(head.value.0);
        if key.None? || (sel != [] && key.value.level <= sel[|sel| - 1].level) then None
        else ParseFrom(head.value.1, sel + [key.value])
  }

  function Parse(directive: string): Option<Selector> {
    if PREFIX <= directive then ParseFrom(directive[|PREFIX|..], []) else None
  }

  method ParseSectionSelector(directive: string) returns (selector: Option<Selector>)
    ensures selector == Parse(directive)
  {
    if !(PREFIX <= directive) {
      return None;
    }
    var rest := directive[|PREFIX|..];
    var sel: Selector := [];
    while rest != ""
      invariant ParseFrom(rest, sel) == Parse(directive)
      decreases |rest|
    {
      if |rest| < 4 || rest[0] != '[' || (rest[1] != '"' && rest[1] != '`') {
        return None;
      }
      var quoteEnd := QuotedStringEnd(rest[1..]);
      if quoteEnd < 0 || quoteEnd + 2 >= |rest| || rest[quoteEnd + 2] != ']' {
        return None;
      }
      var heading := Unquote(rest[1..quoteEnd + 2]);
      if heading.None? {
        return None;
      }
      var key := ParseHeadingKey(heading.value);
      if key.None? || (|sel| > 0 && key.value.level <= sel[|sel| - 1].level) {
        return None;
      }
      sel := sel + [key.value];
      rest := rest[quoteEnd + 3..];
    }
    return if |sel| == 0 then None else Some(sel);
  }

  lemma ParseBracketOfQuote(s: string, printable: char -> bool, t: string)
    ensures ParseBracket("[" + Quote(s, printable) + "]" + t) == Some((s, t))
  {
    var q := Quote(s, printable);
    var rest := "[" + q + "]" + t;
    assert rest[1..] == q + ("]" + t);
    QuotedEndOfQuote(s, printable, "]" + t);
    var end := |q| - 1;
    assert rest[end + 2] == ']' && rest[1..end + 2] == q && rest[end + 3..] == t;
    UnquoteQuote(s, printable);
  }

  lemma {:induction false} ParseBrackets(sel: Selector, printable: char -> bool, done: Selector)
    requires forall i :: 0 <= i < |sel| ==> ValidKey(sel[i])
    requires done + sel != [] && forall i :: 0 < i < |done + sel| ==> (done + sel)[i - 1].level < (done + sel)[i].level
    ensures ParseFrom(Brackets(sel, printable), done) == Some(done + sel)
    decreases |sel|
  {
    hide Quote, ParseBracket, ParseHeadingKey, ExactHeading;
    if sel == [] {
      assert done + sel == done;
    } else {
      var all, rest := done + sel, Brackets(sel[1..], printable);
      ParseBracketOfQuote(ExactHeading(sel[0]), printable, rest);
      ParseExactHeading(sel[0]);
      assert done + [sel[0]] + sel[1..] == all;
      if done != [] {
        assert all[|done| - 1] == done[|done| - 1] && all[|done|] == sel[0];
      }
      assert Brackets(sel, printable) != "";
      ParseBrackets(sel[1..], printable, done + [sel[0]]);
    }
  }

  /** Parsing the canonical text of a valid selector gives that selector. */
  lemma ParsePrint(sel: Selector, printable: char -> bool)
    requires Valid(sel)
    ensures Print(sel, printable).Some? && Parse(Print(sel, printable).value) == Some(sel)
  {
    hide Brackets, ParseFrom;
    AcceptedIffValid(sel);
    var text := PREFIX + Brackets(sel, printable);
    assert text[|PREFIX|..] == Brackets(sel, printable);
    assert [] + sel == sel;
    ParseBrackets(sel, printable, []);
  }

  lemma {:induction false} ParsedIsValid(rest: string, sel: Selector)
    requires sel == [] || Valid(sel)
    ensures ParseFrom(rest, sel).Some? ==> Valid(ParseFrom(rest, sel).value)
    decreases |rest|
  {
    hide ParseBracket;
    if rest == "" {
    } else {
      var head := ParseBracket(rest);
      if head.Some? {
        var key := ParseHeadingKey(head.value.0);
        if !(key.None? || (sel != [] && key.value.level <= sel[|sel| - 1].level)) {
          ParsedIsValid(head.value.1, sel + [key.value]);
        }
      }
    }
  }

  /** Whatever spelling of a directive is accepted, its canonical text parses to the same selector. */
  lemma ReprintParses(directive: string, printable: char -> bool)
    requires Parse(directive).Some?
    ensures Valid(Parse(directive).value)
    ensures var text := Print(Parse(directive).value, printable);
            text.Some? && Parse(text.value) == Parse(directive)
  {
    ParsedIsValid(directive[|PREFIX|..], []);
    ParsePrint(Parse(directive).value, printable);
  }

  /** Canonical text is unique: two selectors with the same text are the same. */
  lemma PrintIsInjective(a: Selector, b: Selector, printable: char -> bool)
    requires Valid(a) && Valid(b) && Print(a, printable) == Print(b, printable)
    ensures a == b
  {
    ParsePrint(a, printable);
    ParsePrint(b, printable);
  }

  // ---- What is accepted

  /** A heading parses exactly when it is the printed form of a key. */
  lemma HeadingKeyExactly(heading: string)
    ensures forall key :: ParseHeadingKey(heading) == Some(key) <==> ValidKey(key) && heading == ExactHeading(key)
  {
    forall key | ValidKey(key) && heading == ExactHeading(key) ensures ParseHeadingKey(heading) == Some(key) {
      ParseExactHeading(key);
    }
    if ParseHeadingKey(heading).Some? {
      var key := ParseHeadingKey(heading).value;
      assert heading == Hashes(key.level) + " " + key.text;
    }
  }

  /** The text spells the headings of the selector, each as one bracketed literal. */
  ghost predicate Spells(rest: string, sel: Selector)
    requires forall i :: 0 <= i < |sel| ==> ValidKey(sel[i])
    decreases |sel|
  {
    if sel == [] then rest == ""
    else
      exists q, t :: rest == "[" + q + "]" + t && IsLiteral(q, ExactHeading(sel[0])) && Spells(t, sel[1..])
  }

  lemma BracketExactly(rest: string)
    ensures forall s, t :: ParseBracket(rest) == Some((s, t)) <==>
              exists q :: rest == "[" + q + "]" + t && IsLiteral(q, s)
  {
    hide Unquote;
    forall s, t | ParseBracket(rest) == Some((s, t)) ensures exists q :: rest == "[" + q + "]" + t && IsLiteral(q, s) {
      var end := QuotedEnd(rest[1..]);
      var q := rest[1..end + 2];
      assert q == rest[1..][..end + 1];
      EndFromCut(rest[1..], end + 1, 1, false);
      assert rest == "[" + q + "]" + t;
    }
    forall q, s, t | rest == "[" + q + "]" + t && IsLiteral(q, s) ensures ParseBracket(rest) == Some((s, t)) {
      ParseLiteral(q, s, t);
    }
  }

  lemma ParseLiteral(q: string, s: string, t: string)
    requires IsLiteral(q, s)
    ensures ParseBracket("[" + q + "]" + t) == Some((s, t))
  {
    hide EndFrom, Unescape, DropReturns;
    var rest := "[" + q + "]" + t;
    EndFromPrefix(q, "]" + t, 1, false);
    assert rest[1..] == q + ("]" + t);
    var end := |q| - 1;
    assert rest[end + 2] == ']' && rest[1..end + 2] == q && rest[end + 3..] == t;
  }

  /** The keys that follow those of `done` are valid and go on deeper. */
  ghost predicate Continues(done: Selector, sel: Selector) {
    && (forall i :: 0 <= i < |sel| ==> ValidKey(sel[i]))
    && (forall i :: 0 < i < |sel| ==> sel[i - 1].level < sel[i].level)
    && (done != [] && sel != [] ==> done[|done| - 1].level < sel[0].level)
  }

  lemma {:induction false} ParsedContinues(rest: string, done: Selector) returns (sel: Selector)
    requires ParseFrom(rest, done).Some?
    ensures ParseFrom(rest, done) == Some(done + sel) && done + sel != [] && Continues(done, sel) && Spells(rest, sel)
    decreases |rest|
  {
    hide ParseBracket, ParseHeadingKey, Unquote, IsLiteral, ExactHeading, Spells, Continues;
    if rest == "" {
      sel := [];
      assert done + sel == done;
      NothingSpelled(done);
    } else {
      var head := ParseBracket(rest).value;
      var key := ParseHeadingKey(head.0).value;
      BracketExactly(rest);
      assert ParseBracket(rest) == Some((head.0, head.1));
      HeadingKeyExactly(head.0);
      var more := ParsedContinues(head.1, done + [key]);
      sel := [key] + more;
      assert done + sel == done + [key] + more;
      OneMoreKey(rest, head.1, done, key, more);
    }
  }

  lemma NothingSpelled(done: Selector)
    ensures Continues(done, []) && Spells("", [])
  {
  }

  lemma OneMoreKey(rest: string, t: string, done: Selector, key: HeadingKey, more: Selector)
    requires ValidKey(key) && (done != [] ==> done[|done| - 1].level < key.level)
    requires Continues(done + [key], more) && Spells(t, more)
    requires exists q :: rest == "[" + q + "]" + t && IsLiteral(q, ExactHeading(key))
    ensures Continues(done, [key] + more) && Spells(rest, [key] + more)
  {
    hide IsLiteral, ExactHeading;
    assert ([key] + more)[1..] == more;
  }

  lemma {:induction false} SpelledParses(rest: string, done: Selector, sel: Selector)
    requires done + sel != [] && Continues(done, sel) && Spells(rest, sel)
    ensures ParseFrom(rest, done) == Some(done + sel)
    decreases |sel|
  {
    hide ParseBracket, ParseHeadingKey, Unquote, IsLiteral;
    if sel == [] {
      assert done + sel == done;
    } else {
      var q, t :| rest == "[" + q + "]" + t && IsLiteral(q, ExactHeading(sel[0])) && Spells(t, sel[1..]);
      ParseLiteral(q, ExactHeading(sel[0]), t);
      HeadingKeyExactly(ExactHeading(sel[0]));
      assert done + sel == done + [sel[0]] + sel[1..];
      SpelledParses(t, done + [sel[0]], sel[1..]);
    }
  }

  /** A directive is accepted exactly when it spells a valid selector, in whatever quotes and escapes, and then means
      that selector. */
  lemma ParseExactly(directive: string, sel: Selector)
    ensures Parse(directive) == Some(sel) <==>
              Valid(sel) && PREFIX <= directive && Spells(directive[|PREFIX|..], sel)
  {
    hide ParseFrom, Spells;
    if Parse(directive) == Some(sel) {
      var keys := ParsedContinues(directive[|PREFIX|..], []);
      assert [] + keys == keys;
    }
    if Valid(sel) && PREFIX <= directive && Spells(directive[|PREFIX|..], sel) {
      assert [] + sel == sel;
      SpelledParses(directive[|PREFIX|..], [], sel);
    }
  }

  // ---- Raw spellings

  lemma ParseBracketOfRaw(s: string, t: string)
    requires '`' !in s
    ensures Unquote("`" + s + "`").Some? && ParseBracket("[`" + s + "`]" + t) == Some((Unquote("`" + s + "`").value, t))
  {
    var q := "`" + s + "`";
    var rest := "[`" + s + "`]" + t;
    RawMeansInside(s);
    assert rest == "[" + q + "]" + t && rest[1..] == q + ("]" + t);
    assert q + ("]" + t) == "`" + s + "`" + ("]" + t);
    QuotedEndOfRaw(s, "]" + t);
    var end := |q| - 1;
    assert rest[end + 2] == ']' && rest[1..end + 2] == q && rest[end + 3..] == t;
  }

  /** A directive that spells its one heading raw means just that key. */
  lemma ParseRaw(key: HeadingKey)
    requires ValidKey(key) && '`' !in key.text && '\r' !in key.text
    ensures Parse(PREFIX + "[`" + ExactHeading(key) + "`]") == Some([key])
  {
    hide Unquote, QuotedEnd, ParseHeadingKey, ParseBracket;
    var heading := ExactHeading(key);
    assert '`' !in heading && '\r' !in heading;
    ParseBracketOfRaw(heading, "");
    RawMeansInside(heading);
    ParseExactHeading(key);
    var directive := PREFIX + "[`" + heading + "`]";
    assert directive[|PREFIX|..] == "[`" + heading + "`]" == "[`" + heading + "`]" + "";
    assert [] + [key] == [key];
    assert ParseFrom("", [key]) == Some([key]);
  }

  lemma NotesParse()
    ensures Parse("body.section[`## Notes`]") == Some([HeadingKey(2, "Notes")])
  {
    var key := HeadingKey(2, "Notes");
    assert ExactHeading(key) == "## Notes";
    ParseRaw(key);
    assert PREFIX + "[`" + ExactHeading(key) + "`]" == "body.section[`## Notes`]";
  }

  // ---- Matching

  /** A selector matches a section whose path ends with it. */
  predicate Matches(path: SectionPath, sel: Selector) {
    0 < |sel| <= |path| && path[|path| - |sel|..] == sel
  }

  method SectionSelectorMatches(path: SectionPath, sel: Selector) returns (matched: bool)
    ensures matched == Matches(path, sel)
  {
    if |sel| == 0 || |sel| > |path| {
      return false;
    }
    var offset := |path| - |sel|;
    for i := 0 to |sel|
      invariant forall k :: 0 <= k < i ==> path[offset + k] == sel[k]
    {
      if path[offset + i] != sel[i] {
        assert path[offset..][i] == path[offset + i];
        return false;
      }
    }
    return true;
  }
}
