/** `count_artifacts` of Transformation_Script.py (lines 253-259): the number of work
    items of an artifact tree, and why the transformation does not change it. */
module ArtifactCount {
  import opened JsonValues
  import opened Attachments
  import opened Rekey
  import opened ArtifactTransform
  import opened ModuleTransform

  /** The work items an element of an artifact list stands for: itself, and the
      artifacts below it when its `children` is a list. */
  function NodeCount(v: Json): nat
    decreases v, 1
  {
    1 + (if v.Obj? && "children" in v.fields && v.fields["children"].Arr?
         then ForestCount(v.fields["children"].items) else 0)
  }

  /** The work items of the first `n` elements of a list. */
  function ForestCountUpTo(vs: seq<Json>, n: nat): nat
    requires n <= |vs|
    decreases Arr(vs), n
  {
    if n == 0 then 0 else ForestCountUpTo(vs, n - 1) + NodeCount(vs[n - 1])
  }

  /** The work items of a list. */
  function ForestCount(vs: seq<Json>): nat
    decreases Arr(vs), |vs| + 1
  {
    ForestCountUpTo(vs, |vs|)
  }

  /** Counting `v` raises no exception: `"children" in v` is a key test on a dict, a
      substring test on a string (and then `v["children"]` raises if it holds), a
      membership test on a list (likewise); on anything else `in` raises. */
  predicate CountReadable(v: Json)
    decreases v, 1
  {
    match v
    case Obj(f) => "children" in f && f["children"].Arr? ==> ForestCountReadable(f["children"].items)
    case Str(s) => !Occurs(s, "children")
    case Arr(xs) => Str("children") !in xs
    case _ => false
  }

  /** Every element of the list can be counted. */
  predicate ForestCountReadable(vs: seq<Json>)
    decreases Arr(vs), 0
  {
    forall i | 0 <= i < |vs| :: CountReadable(vs[i])
  }

  /** `count_artifacts(artifacts)` */
  method CountArtifacts(artifacts: seq<Json>) returns (count: nat)
    requires ForestCountReadable(artifacts)
    ensures count == ForestCount(artifacts)
    decreases Arr(artifacts)
  {
    count := 0;
    var i := 0;
    while i < |artifacts|
      invariant 0 <= i <= |artifacts|
      invariant count == ForestCountUpTo(artifacts, i)
    {
      var artifact := artifacts[i];
      count := count + 1;
      if artifact.Obj? && "children" in artifact.fields && artifact.fields["children"].Arr? {
        var below := CountArtifacts(artifact.fields["children"].items);
        count := count + below;
      }
      i := i + 1;
    }
  }

  /** Every element counts at least once, so a list holds at least as many work items
      as it has elements. */
  lemma {:induction false} ForestCountAtLeastLength(vs: seq<Json>, n: nat)
    requires n <= |vs|
    ensures ForestCountUpTo(vs, n) >= n
  {
    if n > 0 {
      ForestCountAtLeastLength(vs, n - 1);
    }
  }

  /** The children key of a rewritten artifact is the artifact's own. */
  lemma ChildrenStay(a: Dict, r: Dict)
    requires ArtifactReadable(a) && ArtifactRewritten(a, r)
    ensures "children" in r <==> "children" in a
  {
    if "children" in r {
      assert "children" in Targets(a, ArtifactRule(a));
      var k, e :| k in a && e in ArtifactRule(a)(k, a[k]) && e.key == "children";
      ReworkedOnlyFromThemselves(OriginalDescription(a), k, a[k], e);
    }
  }

  /** Two lists whose elements stand for as many work items each stand for as many
      work items, prefix by prefix. */
  lemma {:induction false} ForestCountsAlike(cs: seq<Json>, ws: seq<Json>, n: nat)
    requires |ws| == |cs| && n <= |cs|
    requires forall i | 0 <= i < |cs| :: NodeCount(ws[i]) == NodeCount(cs[i])
    ensures ForestCountUpTo(ws, n) == ForestCountUpTo(cs, n)
  {
    if n > 0 {
      ForestCountsAlike(cs, ws, n - 1);
    }
  }

  /** A rewritten artifact stands for as many work items as the original. */
  lemma {:induction false} ArtifactCountKept(a: Dict, r: Dict)
    requires ArtifactReadable(a) && ArtifactRewritten(a, r)
    ensures NodeCount(Obj(r)) == NodeCount(Obj(a))
    decreases Obj(a), 1
  {
    ChildrenStay(a, r);
    if "children" in a && a["children"].Arr? {
      ForestCountKept(a["children"].items, r["children"]);
    }
  }

  /** A rewritten list stands for as many work items as the original. */
  lemma {:induction false} ForestCountKept(cs: seq<Json>, w: Json)
    requires ForestReadable(cs) && ForestRewritten(cs, w)
    ensures ForestCount(w.items) == ForestCount(cs)
    decreases Arr(cs), 0
  {
    forall i | 0 <= i < |cs| ensures NodeCount(w.items[i]) == NodeCount(cs[i]) {
      assert cs[i] == Obj(cs[i].fields);
      assert w.items[i] == Obj(w.items[i].fields);
      ArtifactCountKept(cs[i].fields, w.items[i].fields);
    }
    ForestCountsAlike(cs, w.items, |cs|);
  }

  /** A rewritten artifact can be counted. */
  lemma {:induction false} ArtifactCountable(a: Dict, r: Dict)
    requires ArtifactReadable(a) && ArtifactRewritten(a, r)
    ensures CountReadable(Obj(r))
    decreases Obj(a), 1
  {
    ChildrenStay(a, r);
    if "children" in a && a["children"].Arr? {
      ForestCountable(a["children"].items, r["children"]);
    }
  }

  /** Every element of a rewritten list can be counted. */
  lemma {:induction false} ForestCountable(cs: seq<Json>, w: Json)
    requires ForestReadable(cs) && ForestRewritten(cs, w)
    ensures ForestCountReadable(w.items)
    decreases Arr(cs), 0
  {
    forall i | 0 <= i < |cs| ensures CountReadable(w.items[i]) {
      assert cs[i] == Obj(cs[i].fields);
      assert w.items[i] == Obj(w.items[i].fields);
      ArtifactCountable(cs[i].fields, w.items[i].fields);
    }
  }

  /** The work items the main loop reports for a module (line 276) can be counted, are
      as many as the original module's artifact tree holds, and are at least as many
      as its top-level artifacts. */
  lemma ModuleCountKept(d: Dict, r: Dict)
    requires ModuleReadable(d) && ModuleRewritten(d, r)
    requires "artifacts" in d && d["artifacts"].Arr?
    ensures "artifacts" in r && r["artifacts"].Arr?
    ensures ForestCountReadable(r["artifacts"].items)
    ensures ForestCount(r["artifacts"].items) == ForestCount(d["artifacts"].items)
    ensures ForestCount(r["artifacts"].items) >= |d["artifacts"].items|
  {
    var cs := d["artifacts"].items;
    ForestCountable(cs, r["artifacts"]);
    ForestCountKept(cs, r["artifacts"]);
    ForestCountAtLeastLength(cs, |cs|);
  }
}
