/** Section candidates that would define the same field (internal/infer/body_sections.go,
    `rejectSectionFieldCollisions`). */
module FieldCollisions {
  import opened Order

  /** A heading that is frequent enough, and the field it would become. */
  datatype Candidate = Candidate(field: string, exact: string)

  datatype Collision = Collision(field: string, headings: seq<string>)

  function CompareCandidates(a: Candidate, b: Candidate): int {
    if a.field != b.field then CompareStrings(a.field, b.field) else CompareStrings(a.exact, b.exact)
  }

  /** The headings that would become a field, in order. */
  function HeadingsOf(cs: seq<Candidate>, field: string): seq<string> {
    if cs == [] then []
    else HeadingsOf(cs[..|cs| - 1], field) + if cs[|cs| - 1].field == field then [cs[|cs| - 1].exact] else []
  }

  ghost predicate Grouped(cs: seq<Candidate>) {
    forall i, j, k :: 0 <= i < j < k < |cs| && cs[i].field == cs[k].field ==> cs[j].field == cs[i].field
  }

  lemma SortedIsGrouped(cs: seq<Candidate>)
    ensures Grouped(Sort(CompareCandidates, cs))
  {
    hide Sort, WeakOrder, CompareCandidates;
    var s := Sort(CompareCandidates, cs);
    CandidatesRank();
    SortRanks(CompareCandidates, cs);
    forall i, j, k | 0 <= i < j < k < |s| && s[i].field == s[k].field ensures s[j].field == s[i].field {
      Between(s[i], s[j], s[k]);
    }
  }

  lemma CandidatesRank()
    ensures WeakOrder(CompareCandidates)
  {
    hide CompareStrings, TotalOrder;
    StringsTotal();
    forall a, b ensures CompareCandidates(a, b) < 0 <==> CompareCandidates(b, a) > 0 {
      StringsFlip(a.field, b.field);
      StringsFlip(a.exact, b.exact);
    }
    forall a, b, c | CompareCandidates(a, b) <= 0 && CompareCandidates(b, c) <= 0 ensures CompareCandidates(a, c) <= 0 {
      StringsChain(a.field, b.field, c.field);
      StringsChain(a.exact, b.exact, c.exact);
    }
  }

  lemma StringsFlip(a: string, b: string)
    requires TotalOrder(CompareStrings)
    ensures (CompareStrings(a, b) < 0 <==> CompareStrings(b, a) > 0) && (CompareStrings(a, b) == 0 <==> a == b)
  {
  }

  /** A chain that comes back to where it started has never left. */
  lemma StringsChain(a: string, b: string, c: string)
    requires TotalOrder(CompareStrings)
    ensures CompareStrings(a, b) <= 0 && CompareStrings(b, c) <= 0 ==>
              CompareStrings(a, c) <= 0 && (a == c ==> a == b)
  {
  }

  lemma Between(a: Candidate, b: Candidate, c: Candidate)
    requires CompareCandidates(a, b) <= 0 && CompareCandidates(b, c) <= 0 && a.field == c.field
    ensures b.field == a.field
  {
    hide CompareStrings, TotalOrder;
    StringsTotal();
    StringsChain(a.field, b.field, c.field);
  }

  /** Exactly the fields that two candidates share, each once, with all their headings. */
  ghost predicate Reports(cs: seq<Candidate>, collisions: seq<Collision>) {
    && (forall c :: c in collisions ==> |HeadingsOf(cs, c.field)| > 1 && c.headings == HeadingsOf(cs, c.field))
    && (forall field :: |HeadingsOf(cs, field)| > 1 ==> exists c :: c in collisions && c.field == field)
    && (forall i, j :: 0 <= i < j < |collisions| ==> collisions[i].field != collisions[j].field)
  }

  lemma {:induction false} NoHeadings(cs: seq<Candidate>, field: string)
    ensures HeadingsOf(cs, field) == [] <==> forall c :: c in cs ==> c.field != field
  {
    if cs == [] {
    } else {
      NoHeadings(cs[..|cs| - 1], field);
      assert cs == cs[..|cs| - 1] + [cs[|cs| - 1]];
    }
  }

  lemma {:induction false} HeadingsAppend(cs: seq<Candidate>, run: seq<Candidate>, field: string)
    ensures HeadingsOf(cs + run, field) == HeadingsOf(cs, field) + HeadingsOf(run, field)
  {
    if run == [] {
      assert cs + run == cs;
    } else {
      var n := |run| - 1;
      HeadingsAppend(cs, run[..n], field);
      assert (cs + run)[..|cs| + n] == cs + run[..n];
    }
  }

  /** Walks over runs of equal fields. */
  method RejectFieldCollisions(cs: seq<Candidate>) returns (collisions: seq<Collision>)
    requires Grouped(cs)
    ensures Reports(cs, collisions)
  {
    hide Reports, HeadingsOf;
    collisions := [];
    var i := 0;
    NothingReported();
    while i < |cs|
      invariant i <= |cs| && Reports(cs[..i], collisions)
      invariant forall a, b :: 0 <= a < i <= b < |cs| ==> cs[a].field != cs[b].field
    {
      var j := i + 1;
      while j < |cs| && cs[j].field == cs[i].field
        invariant i < j <= |cs| && forall k :: i <= k < j ==> cs[k].field == cs[i].field
      {
        j := j + 1;
      }
      var headings := HeadingsOfRun(cs[i..j], cs[i].field);
      assert cs[..j] == cs[..i] + cs[i..j];
      forall c | c in cs[..i] ensures c.field != cs[i].field {}
      ReportsRun(cs[..i], cs[i..j], cs[i].field, collisions);
      if j - i > 1 {
        collisions := collisions + [Collision(cs[i].field, headings)];
      }
      i := j;
    }
    assert cs[..|cs|] == cs;
  }

  method HeadingsOfRun(run: seq<Candidate>, field: string) returns (headings: seq<string>)
    requires forall c :: c in run ==> c.field == field
    ensures headings == HeadingsOf(run, field) && |headings| == |run|
  {
    headings := [];
    for k := 0 to |run|
      invariant headings == HeadingsOf(run[..k], field) && |headings| == k
    {
      assert run[..k + 1][..k] == run[..k];
      headings := headings + [run[k].exact];
    }
    assert run[..|run|] == run;
  }

  lemma NothingReported()
    ensures Reports([], [])
  {
  }

  lemma ReportsRun(cs: seq<Candidate>, run: seq<Candidate>, field: string, collisions: seq<Collision>)
    requires Reports(cs, collisions) && |HeadingsOf(run, field)| == |run|
    requires forall c :: c in run ==> c.field == field
    requires forall c :: c in cs ==> c.field != field
    ensures Reports(cs + run, if |run| > 1 then collisions + [Collision(field, HeadingsOf(run, field))] else collisions)
  {
    hide HeadingsOf;
    forall other
      ensures HeadingsOf(cs + run, other) == if other == field then HeadingsOf(run, field) else HeadingsOf(cs, other)
    {
      HeadingsAppend(cs, run, other);
      NoHeadings(cs, other);
      NoHeadings(run, other);
    }
    NoHeadings(cs, field);
    AddsRun(cs, cs + run, collisions, field, HeadingsOf(run, field));
  }

  lemma AddsRun(cs: seq<Candidate>, all: seq<Candidate>, collisions: seq<Collision>, field: string,
                headings: seq<string>)
    requires Reports(cs, collisions) && HeadingsOf(cs, field) == []
    requires forall other :: HeadingsOf(all, other) == if other == field then headings else HeadingsOf(cs, other)
    ensures Reports(all, if |headings| > 1 then collisions + [Collision(field, headings)] else collisions)
  {
    hide HeadingsOf;
    var more := collisions + [Collision(field, headings)];
    assert forall c :: c in more <==> c in collisions || c == Collision(field, headings);
  }

  /** Candidates are rejected exactly when two of them would become one field. */
  lemma RejectsIffShared(cs: seq<Candidate>, collisions: seq<Collision>)
    requires Reports(cs, collisions)
    ensures collisions != [] <==> exists i, j :: 0 <= i < j < |cs| && cs[i].field == cs[j].field
  {
    hide HeadingsOf;
    if collisions != [] {
      assert collisions[0] in collisions;
      TwoHeadings(cs, collisions[0].field);
    }
    if i, j :| 0 <= i < j < |cs| && cs[i].field == cs[j].field {
      TwoHeadings(cs, cs[i].field);
    }
  }

  ghost predicate SharedPair(cs: seq<Candidate>, field: string) {
    exists i, j :: 0 <= i < j < |cs| && cs[i].field == cs[j].field == field
  }

  /** Two candidates share a field when two before the last do, or the last joins an earlier one. */
  lemma PairAtEnd(cs: seq<Candidate>, field: string)
    requires cs != []
    ensures var n := |cs| - 1;
            SharedPair(cs, field) <==>
              SharedPair(cs[..n], field) || (cs[n].field == field && exists c :: c in cs[..n] && c.field == field)
  {
    var n := |cs| - 1;
    if SharedPair(cs[..n], field) {
      var i, j :| 0 <= i < j < n && cs[..n][i].field == cs[..n][j].field == field;
      assert cs[i].field == cs[j].field == field;
    }
    if c :| c in cs[..n] && c.field == field {
      var i :| 0 <= i < n && cs[..n][i] == c;
      assert cs[i].field == field;
    }
    if i, j :| 0 <= i < j < |cs| && cs[i].field == cs[j].field == field {
      assert cs[..n][i] in cs[..n];
      if j < n { assert cs[..n][i].field == cs[..n][j].field == field; }
    }
  }

  lemma {:induction false} TwoHeadings(cs: seq<Candidate>, field: string)
    ensures |HeadingsOf(cs, field)| > 1 <==> SharedPair(cs, field)
  {
    hide SharedPair;
    if cs == [] {
      assert !SharedPair(cs, field) by { NoPair(cs, field); }
    } else {
      var n := |cs| - 1;
      TwoHeadings(cs[..n], field);
      NoHeadings(cs[..n], field);
      PairAtEnd(cs, field);
    }
  }

  lemma NoPair(cs: seq<Candidate>, field: string)
    requires cs == []
    ensures !SharedPair(cs, field)
  {
  }
}
