/** What the edges of a built graph are: one for each link, with the target its own spelling asks for. */
module LinkTargets {
  import opened LinkGraph
  import opened GraphBuild

  /** A bare name stands for a node whose file has it, with or without the ending ".md". */
  predicate GoesBy(paths: Paths, node: string, name: string) {
    paths.base(node) == name || paths.base(node) == name + ".md"
  }

  /** The one node of that name. */
  ghost predicate OneGoesBy(paths: Paths, nodes: set<string>, name: string, node: string) {
    node in nodes && GoesBy(paths, node, name) && forall p :: p in nodes && GoesBy(paths, p, name) ==> p == node
  }

  ghost predicate NotOne(paths: Paths, nodes: set<string>, name: string) {
    forall p :: !OneGoesBy(paths, nodes, name, p)
  }

  /** A target with a slash or two dots in it. */
  ghost predicate IsPath(target: string) {
    '/' in target || exists a, b :: target == a + ".." + b
  }

  lemma DotsAreInside(target: string)
    ensures HasDots(target) <==> exists a, b :: target == a + ".." + b
  {
    if i :| 0 <= i < |target| - 1 && target[i] == '.' && target[i + 1] == '.' {
      assert target == target[..i] + ".." + target[i + 2..];
    }
    if a, b :| target == a + ".." + b { assert target[|a|] == '.' && target[|a| + 1] == '.'; }
  }

  lemma NamedGoBy(paths: Paths, nodes: set<string>, name: string)
    ensures forall p :: p in Named(paths, nodes, name) <==> p in nodes && GoesBy(paths, p, name)
  {
    forall p | p in nodes
      ensures WithoutMd(paths.base(p)) == name || paths.base(p) == name <==> GoesBy(paths, p, name)
    {
      var base := paths.base(p);
      if WithoutMd(base) != base { assert base == WithoutMd(base) + ".md"; }
      if base == name + ".md" { assert base[|base| - 3..] == ".md" && base[..|base| - 3] == name; }
    }
  }

  lemma OneOrNot(paths: Paths, nodes: set<string>, name: string)
    ensures |Named(paths, nodes, name)| == 1 ==> OneGoesBy(paths, nodes, name, Only(Named(paths, nodes, name)))
    ensures |Named(paths, nodes, name)| != 1 ==> NotOne(paths, nodes, name)
  {
    NamedGoBy(paths, nodes, name);
    var named := Named(paths, nodes, name);
    if |named| == 1 {
      var x :| x in named;
      assert named == {x} by { assert |named - {x}| == 0; }
    }
    forall p | OneGoesBy(paths, nodes, name, p) ensures |named| == 1 { assert named == {p}; }
  }

  /** Where an unchecked link of a document leads, before and after the fallback to a bare name. */
  ghost predicate LeadsTo(paths: Paths, nodes: set<string>, first: string, target: string) {
    if first !in nodes && !NotOne(paths, nodes, first) then OneGoesBy(paths, nodes, first, target) else target == first
  }

  /** A target resolved by other means, or by Markdown, stays verbatim. A path is taken from the document's directory,
      and so is a name with an extension where that gives a node; any other name is taken as it stands. What is then no
      node, but the name of exactly one, stands for that node. */
  lemma TargetExactly(paths: Paths, path: string, l: Link, nodes: set<string>)
    ensures l.resolution != "" || l.markdown ==> Resolved(paths, path, l, nodes) == l.target
    ensures l.resolution == "" && !l.markdown ==>
              var relative, target := paths.join(path, l.target), Resolved(paths, path, l, nodes);
              && (IsPath(l.target) ==> LeadsTo(paths, nodes, relative, target))
              && (!IsPath(l.target) && paths.hasExtension(l.target) && relative in nodes ==> target == relative)
              && (!IsPath(l.target) && !(paths.hasExtension(l.target) && relative in nodes) ==>
                    LeadsTo(paths, nodes, l.target, target))
  {
    hide NotOne, OneGoesBy, HasDots, Named;
    DotsAreInside(l.target);
    var first := FirstTarget(paths, path, l, nodes);
    ByNameLeads(paths, nodes, first);
  }

  lemma ByNameLeads(paths: Paths, nodes: set<string>, first: string)
    ensures LeadsTo(paths, nodes, first, ByName(paths, nodes, first))
    ensures first in nodes ==> ByName(paths, nodes, first) == first
  {
    OneOrNot(paths, nodes, first);
    hide OneGoesBy, Named;
  }

  /** The edges of a document that is recorded once: one for each of its links, in order, carrying the link's own kind,
      line and resolution. */
  lemma {:induction false} EdgesExactly(records: seq<Record>, k: nat, nodes: set<string>, resolve: Resolver)
    requires k < |records| && forall i :: 0 <= i < |records| && records[i].path == records[k].path ==> i == k
    ensures var rec, row := records[k], StatedEdges(records, records[k].path, nodes, resolve);
            && |row| == |rec.links|
            && forall i :: 0 <= i < |row| ==>
                 var l := rec.links[i];
                 row[i] == Edge(rec.path, resolve(rec.path, l, nodes), l.kind, l.line, l.resolution, l.markdown)
  {
    var n := |records| - 1;
    if k < n {
      assert forall i :: 0 <= i < n ==> records[..n][i] == records[i];
      EdgesExactly(records[..n], k, nodes, resolve);
    } else {
      NoRecordNoEdges(records[..n], records[k].path, nodes, resolve);
    }
  }

  lemma {:induction false} NoRecordNoEdges(records: seq<Record>, a: string, nodes: set<string>, resolve: Resolver)
    requires forall rec :: rec in records ==> rec.path != a
    ensures StatedEdges(records, a, nodes, resolve) == []
  {
    if records == [] {
    } else {
      NoRecordNoEdges(records[..|records| - 1], a, nodes, resolve);
    }
  }
}
