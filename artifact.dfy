/** `transform_artifact` of Transformation_Script.py (lines 166-225): the recursive
    rewrite of one artifact of a module, with its links, its children and the
    attachment records of its saved resources. */
module ArtifactTransform {
  import opened Text
  import opened JsonValues
  import opened MappingTables
  import opened PrimaryCleaner
  import opened Rekey
  import opened Attachments
  import opened LinkTransform

  /** What separates the cleaned rich text from the original description (line 183). */
  const Separator: string := "<br/><br/>Description:<br/>-----------------------------------<br/>"

  /** The keys reworked after the key loop (lines 189-224). */
  const Reworked: set<string> := {"linked_artifacts", "children", "attachments"}

  /** `artifact.get("description", "")`, as the string `.strip()` is called on. */
  function OriginalDescription(a: Dict): string
  {
    if "description" in a && a["description"].Str? then a["description"].s else ""
  }

  /** The new description: the cleaned rich text, then the separator and the original
      description when that is not blank (lines 179-184). */
  function MergedDescription(html: Json, original: string): string
  {
    CleanPrimaryHtml(TextOf(html)) + (if Strip(original) != "" then Separator + original else "")
  }

  /** What one iteration of the key loop (lines 169-187) inserts for `key: value`. */
  function ArtifactEntries(original: string, key: string, value: Json): seq<Entry>
  {
    if key in ArtifactKeyRenames then
      var newKey := ArtifactKeyRenames[key];
      [Entry(newKey, if newKey == "status" then Recode(ArtifactStatuses, value) else value)]
    else if key == "artifact_type" then [Entry(key, Recode(ArtifactTypes, value))]
    else if key == "primary_text_html" then [Entry("description", Str(MergedDescription(value, original)))]
    else if key == "primary_text_html_local" then [Entry(key, Str(CleanPrimaryHtml(TextOf(value))))]
    else if key == "description" then []
    else [Entry(key, value)]
  }

  /** The key loop's rule for artifact `a`. */
  function ArtifactRule(a: Dict): Rule
  {
    (key, value) => ArtifactEntries(OriginalDescription(a), key, value)
  }

  /** The links of an artifact can be rewritten: each one is a dict. */
  predicate LinksReadable(v: Json)
  {
    v.Arr? ==> forall i | 0 <= i < |v.items| :: v.items[i].Obj? && LinkReadable(v.items[i].fields)
  }

  /** The artifact can be rewritten without an exception: the looked-up values are
      hashable, the rich text is a string (or falsy), the description is a string
      where it is stripped, links and children are dicts, the saved resources are
      paths, and an existing `attachments` that is extended is a list. */
  predicate ArtifactReadable(a: Dict)
    decreases Obj(a), 1
  {
    && ("artifact_status" in a ==> Hashable(a["artifact_status"]))
    && ("artifact_type" in a ==> Hashable(a["artifact_type"]))
    && ("primary_text_html" in a ==> TextLike(a["primary_text_html"]) && ("description" in a ==> a["description"].Str?))
    && ("primary_text_html_local" in a ==> TextLike(a["primary_text_html_local"]))
    && ("linked_artifacts" in a ==> LinksReadable(a["linked_artifacts"]))
    && ("children" in a && a["children"].Arr? ==> ForestReadable(a["children"].items))
    && ResourcesReadable(a)
    && (ResourcePaths(a) != [] && "attachments" in a ==> a["attachments"].Arr?)
  }

  /** Every artifact of a list can be rewritten. */
  predicate ForestReadable(cs: seq<Json>)
    decreases Arr(cs), 0
  {
    forall i | 0 <= i < |cs| :: cs[i].Obj? && ArtifactReadable(cs[i].fields)
  }

  /** `w` is the list of rewritten links of `v` (lines 189-192), or `v` itself when
      that is not a list. */
  ghost predicate LinksRewritten(v: Json, w: Json)
  {
    if v.Arr? then
      && w.Arr? && |w.items| == |v.items|
      && forall i | 0 <= i < |v.items| ::
           v.items[i].Obj? && w.items[i].Obj? && RekeyedBy(v.items[i].fields, LinkEntries, w.items[i].fields)
    else w == v
  }

  /** `r` is what `transform_artifact(a)` returns, for some order of the items of
      `a` and of its links and children. */
  ghost predicate ArtifactRewritten(a: Dict, r: Dict)
    requires ArtifactReadable(a)
    decreases Obj(a), 2
  {
    && KeysRewritten(a, r)
    && ValuesRewritten(a, r)
    && LinksPart(a, r)
    && ChildrenPart(a, r)
    && AttachmentsPart(a, r)
  }

  /** The keys are the ones the key loop writes, plus `attachments` when there is
      something to attach. */
  ghost predicate KeysRewritten(a: Dict, r: Dict)
    requires ResourcesReadable(a)
  {
    r.Keys == Targets(a, ArtifactRule(a)) + (if Collected(a) != [] then {"attachments"} else {})
  }

  /** Every key but the reworked ones holds a value the key loop writes for it. */
  ghost predicate ValuesRewritten(a: Dict, r: Dict)
  {
    forall t | t in r && t !in Reworked :: Produces(a, ArtifactRule(a), t, r[t])
  }

  /** The links are rewritten one by one, in order, when they are a list. */
  ghost predicate LinksPart(a: Dict, r: Dict)
  {
    "linked_artifacts" in a ==> "linked_artifacts" in r && LinksRewritten(a["linked_artifacts"], r["linked_artifacts"])
  }

  /** The children are rewritten one by one, in order, when they are a list. */
  ghost predicate ChildrenPart(a: Dict, r: Dict)
    requires ArtifactReadable(a)
    decreases Obj(a), 1
  {
    "children" in a ==>
      && "children" in r
      && (if a["children"].Arr? then ForestRewritten(a["children"].items, r["children"])
          else r["children"] == a["children"])
  }

  /** The new records follow the attachments already there; with nothing to attach,
      `attachments` is left as it is. */
  ghost predicate AttachmentsPart(a: Dict, r: Dict)
    requires ResourcesReadable(a)
  {
    if Collected(a) == [] then ("attachments" in a ==> "attachments" in r && r["attachments"] == a["attachments"])
    else "attachments" in r && r["attachments"] == Arr(ExistingAttachments(a) + Collected(a))
  }

  /** `w` is the list of the rewritten artifacts of `cs`, in order. */
  ghost predicate ForestRewritten(cs: seq<Json>, w: Json)
    requires ForestReadable(cs)
    decreases Arr(cs), 0
  {
    && w.Arr? && |w.items| == |cs|
    && forall i | 0 <= i < |cs| :: w.items[i].Obj? && ArtifactRewritten(cs[i].fields, w.items[i].fields)
  }

  /** The body of the key loop (lines 170-187): what is inserted for one `key: value`. */
  method InsertArtifactItem(newArtifact: Dict, original: string, key: string, value: Json) returns (r: Dict)
    ensures r == Put(newArtifact, ArtifactEntries(original, key, value))
  {
    if key in ArtifactKeyRenames {
      var newKey := ArtifactKeyRenames[key];
      var newValue := value;
      if newKey == "status" && value.Str? && value.s in ArtifactStatuses {
        newValue := Str(ArtifactStatuses[value.s]);
      }
      assert ArtifactEntries(original, key, value) == [Entry(newKey, newValue)];
      r := newArtifact[newKey := newValue];
      PutSmall(newArtifact, Entry(newKey, newValue));
    } else if key == "artifact_type" {
      assert ArtifactEntries(original, key, value) == [Entry(key, Recode(ArtifactTypes, value))];
      r := newArtifact[key := Recode(ArtifactTypes, value)];
      PutSmall(newArtifact, Entry(key, Recode(ArtifactTypes, value)));
    } else if key == "primary_text_html" {
      var validHtml := CleanPrimaryHtml(TextOf(value));
      var mergedDescription := validHtml;
      if Strip(original) != "" {
        mergedDescription := mergedDescription + (Separator + original);
      }
      assert mergedDescription == MergedDescription(value, original);
      assert ArtifactEntries(original, key, value) == [Entry("description", Str(mergedDescription))];
      r := newArtifact["description" := Str(mergedDescription)];
      PutSmall(newArtifact, Entry("description", Str(mergedDescription)));
    } else if key == "primary_text_html_local" {
      assert ArtifactEntries(original, key, value) == [Entry(key, Str(CleanPrimaryHtml(TextOf(value))))];
      r := newArtifact[key := Str(CleanPrimaryHtml(TextOf(value)))];
      PutSmall(newArtifact, Entry(key, Str(CleanPrimaryHtml(TextOf(value)))));
    } else if key == "description" {
      assert ArtifactEntries(original, key, value) == [];
      r := newArtifact;
      PutSmall(newArtifact, Entry(key, value));
    } else {
      assert ArtifactEntries(original, key, value) == [Entry(key, value)];
      r := newArtifact[key := value];
      PutSmall(newArtifact, Entry(key, value));
    }
  }

  /** Only the key itself yields a reworked key, and it yields it unchanged. */
  lemma ReworkedOnlyFromThemselves(original: string, key: string, value: Json, e: Entry)
    requires e in ArtifactEntries(original, key, value) && e.key in Reworked
    ensures key == e.key && e.value == value
  {
    if key in ArtifactKeyRenames {
      NewNamesNotSpecial();
    }
  }

  /** A reworked key is copied by the key loop. */
  lemma ReworkedCopied(original: string, t: string, value: Json)
    requires t in Reworked
    ensures ArtifactEntries(original, t, value) == [Entry(t, value)]
  {
    assert t !in ArtifactKeyRenames;
  }

  /** The key loop leaves a reworked key as the artifact has it. */
  lemma KeyLoopKeepsReworked(a: Dict, base: Dict, t: string)
    requires RekeyedBy(a, ArtifactRule(a), base) && t in Reworked
    ensures t in base <==> t in a
    ensures t in a ==> base[t] == a[t]
  {
    var rule := ArtifactRule(a);
    forall k, e | k in a && e in rule(k, a[k]) && e.key == t ensures k == t && e.value == a[t] {
      ReworkedOnlyFromThemselves(OriginalDescription(a), k, a[k], e);
    }
    if t in a {
      ReworkedCopied(OriginalDescription(a), t, a[t]);
    }
    RekeyedKeepsOwnKey(a, rule, base, t);
  }

  /** Lines 169-187: the key loop. */
  method ArtifactKeyLoop(artifact: Dict) returns (newArtifact: Dict)
    ensures RekeyedBy(artifact, ArtifactRule(artifact), newArtifact)
  {
    var original := OriginalDescription(artifact);
    newArtifact := map[];
    var todo := artifact.Keys;
    RekeyLoopStart(artifact, ArtifactRule(artifact));
    while todo != {}
      invariant RekeyedSoFar(artifact, ArtifactRule(artifact), todo, newArtifact)
      decreases |todo|
    {
      var key :| key in todo;
      RekeyLoopStep(artifact, ArtifactRule(artifact), todo, newArtifact, key);
      newArtifact := InsertArtifactItem(newArtifact, original, key, artifact[key]);
      todo := todo - {key};
    }
    RekeyLoopEnd(artifact, ArtifactRule(artifact), newArtifact);
  }

  /** Lines 189-192: each link rewritten, in order. */
  method TransformLinks(links: seq<Json>) returns (newLinks: seq<Json>)
    requires LinksReadable(Arr(links))
    ensures LinksRewritten(Arr(links), Arr(newLinks))
  {
    newLinks := [];
    var i := 0;
    while i < |links|
      invariant 0 <= i <= |links| && |newLinks| == i
      invariant forall j | 0 <= j < i ::
        newLinks[j].Obj? && RekeyedBy(links[j].fields, LinkEntries, newLinks[j].fields)
    {
      var newLink := TransformLinkedArtifact(links[i].fields);
      newLinks := newLinks + [Obj(newLink)];
      i := i + 1;
    }
  }

  /** One more rewritten artifact extends the rewritten prefix of the list. */
  lemma ForestGrows(cs: seq<Json>, ws: seq<Json>, w: Dict, i: int)
    requires ForestReadable(cs) && 0 <= i < |cs| && |ws| == i
    requires forall j | 0 <= j < i :: ws[j].Obj? && ArtifactRewritten(cs[j].fields, ws[j].fields)
    requires ArtifactRewritten(cs[i].fields, w)
    ensures forall j | 0 <= j < i + 1 ::
      (ws + [Obj(w)])[j].Obj? && ArtifactRewritten(cs[j].fields, (ws + [Obj(w)])[j].fields)
  {
    var ws' := ws + [Obj(w)];
    forall j | 0 <= j < i + 1 ensures ws'[j].Obj? && ArtifactRewritten(cs[j].fields, ws'[j].fields) {
      if j < i {
        assert ws'[j] == ws[j];
      } else {
        assert ws'[j] == Obj(w);
      }
    }
  }

  /** `[transform_artifact(child) for child in children]` (line 196), and equally the
      artifacts of a module (line 248). */
  method TransformArtifactList(cs: seq<Json>) returns (ws: seq<Json>)
    requires ForestReadable(cs)
    ensures ForestRewritten(cs, Arr(ws))
    decreases Arr(cs), 0
  {
    ws := [];
    var i := 0;
    while i < |cs|
      invariant 0 <= i <= |cs| && |ws| == i
      invariant forall j | 0 <= j < i :: ws[j].Obj? && ArtifactRewritten(cs[j].fields, ws[j].fields)
    {
      assert cs[i] == Obj(cs[i].fields);
      var w := TransformArtifact(cs[i].fields);
      ForestGrows(cs, ws, w, i);
      ws := ws + [Obj(w)];
      i := i + 1;
    }
  }

  /** `r` holds what `n` holds at every key but the reworked ones. */
  ghost predicate AgreesOutside(n: Dict, r: Dict)
  {
    forall t | t in n && t !in Reworked :: t in r && r[t] == n[t]
  }

  lemma AgreesOutsideChain(x: Dict, y: Dict, z: Dict)
    requires AgreesOutside(x, y) && AgreesOutside(y, z)
    ensures AgreesOutside(x, z)
  {
  }

  /** What the key loop and the three reworkings together give is the rewritten
      artifact. */
  lemma RewriteComplete(a: Dict, base: Dict, r: Dict)
    requires ArtifactReadable(a)
    requires RekeyedBy(a, ArtifactRule(a), base)
    requires r.Keys == base.Keys + (if Collected(a) != [] then {"attachments"} else {})
    requires AgreesOutside(base, r)
    requires LinksPart(a, r) && ChildrenPart(a, r) && AttachmentsPart(a, r)
    ensures ArtifactRewritten(a, r)
  {
  }

  /** Lines 189-192: a list of links is replaced by the rewritten links. */
  method RewriteLinks(artifact: Dict, newArtifact: Dict) returns (r: Dict)
    requires ArtifactReadable(artifact)
    requires "linked_artifacts" in newArtifact <==> "linked_artifacts" in artifact
    requires "linked_artifacts" in artifact ==> newArtifact["linked_artifacts"] == artifact["linked_artifacts"]
    ensures r.Keys == newArtifact.Keys
    ensures AgreesOutside(newArtifact, r)
    ensures "children" in newArtifact ==> r["children"] == newArtifact["children"]
    ensures "attachments" in newArtifact ==> r["attachments"] == newArtifact["attachments"]
    ensures LinksPart(artifact, r)
  {
    r := newArtifact;
    if "linked_artifacts" in r && r["linked_artifacts"].Arr? {
      var links := TransformLinks(r["linked_artifacts"].items);
      r := r["linked_artifacts" := Arr(links)];
    }
  }

  /** Lines 194-197: a list of children is replaced by the rewritten children. */
  method RewriteChildren(artifact: Dict, newArtifact: Dict) returns (r: Dict)
    requires ArtifactReadable(artifact)
    requires "children" in newArtifact <==> "children" in artifact
    requires "children" in artifact ==> newArtifact["children"] == artifact["children"]
    ensures r.Keys == newArtifact.Keys
    ensures AgreesOutside(newArtifact, r)
    ensures "linked_artifacts" in newArtifact ==> r["linked_artifacts"] == newArtifact["linked_artifacts"]
    ensures "attachments" in newArtifact ==> r["attachments"] == newArtifact["attachments"]
    ensures ChildrenPart(artifact, r)
    decreases Obj(artifact), 0
  {
    r := newArtifact;
    if "children" in r && r["children"].Arr? {
      var children := TransformArtifactList(r["children"].items);
      r := r["children" := Arr(children)];
    }
  }

  /** Appending the records touches no key but `attachments`, creates it only when
      there is something to append, and leaves it as the attachments part of the
      rewritten artifact. */
  lemma AppendTouchesOnlyAttachments(artifact: Dict, newArtifact: Dict)
    requires ResourcesReadable(artifact)
    requires "attachments" in newArtifact <==> "attachments" in artifact
    requires "attachments" in artifact ==> newArtifact["attachments"] == artifact["attachments"]
    ensures var r := WithAttachments(artifact, newArtifact);
      && r.Keys == newArtifact.Keys + (if Collected(artifact) != [] then {"attachments"} else {})
      && AgreesOutside(newArtifact, r)
      && ("linked_artifacts" in newArtifact ==> r["linked_artifacts"] == newArtifact["linked_artifacts"])
      && ("children" in newArtifact ==> r["children"] == newArtifact["children"])
      && AttachmentsPart(artifact, r)
  {
  }

  /** The rewritten links stay when another key is reworked. */
  lemma LinksPartKept(a: Dict, n: Dict, r: Dict)
    requires LinksPart(a, n)
    requires "linked_artifacts" in n ==> "linked_artifacts" in r && r["linked_artifacts"] == n["linked_artifacts"]
    ensures LinksPart(a, r)
  {
  }

  /** The rewritten children stay when another key is reworked. */
  lemma ChildrenPartKept(a: Dict, n: Dict, r: Dict)
    requires ArtifactReadable(a) && ChildrenPart(a, n)
    requires "children" in n ==> "children" in r && r["children"] == n["children"]
    ensures ChildrenPart(a, r)
  {
  }

  /** `transform_artifact(artifact)` */
  method TransformArtifact(artifact: Dict) returns (newArtifact: Dict)
    requires ArtifactReadable(artifact)
    ensures ArtifactRewritten(artifact, newArtifact)
    decreases Obj(artifact), 1
  {
    newArtifact := ArtifactKeyLoop(artifact);
    ghost var base := newArtifact;
    KeyLoopKeepsReworked(artifact, base, "linked_artifacts");
    KeyLoopKeepsReworked(artifact, base, "children");
    KeyLoopKeepsReworked(artifact, base, "attachments");
    newArtifact := RewriteLinks(artifact, newArtifact);
    ghost var linked := newArtifact;
    newArtifact := RewriteChildren(artifact, newArtifact);
    LinksPartKept(artifact, linked, newArtifact);
    ghost var relinked := newArtifact;
    newArtifact := AppendAttachments(artifact, newArtifact);
    AppendTouchesOnlyAttachments(artifact, relinked);
    LinksPartKept(artifact, relinked, newArtifact);
    ChildrenPartKept(artifact, relinked, newArtifact);
    AgreesOutsideChain(base, linked, relinked);
    AgreesOutsideChain(base, relinked, newArtifact);
    RewriteComplete(artifact, base, newArtifact);
  }
}
