/** What `transform_artifact` promises about the keys and values of the artifact it
    returns, for every order of iteration. */
module ArtifactFacts {
  import opened Text
  import opened JsonValues
  import opened MappingTables
  import opened PrimaryCleaner
  import opened Rekey
  import opened Attachments
  import opened ArtifactTransform

  /** The key loop's part of a rewritten artifact: its keys, bar `attachments`, are
      the ones the loop writes, each holding a value the loop writes for it. */
  ghost predicate KeyLoopPart(a: Dict, r: Dict)
  {
    && r.Keys - {"attachments"} == Targets(a, ArtifactRule(a)) - {"attachments"}
    && ValuesRewritten(a, r)
  }

  lemma RewrittenKeyLoopPart(a: Dict, r: Dict)
    requires ArtifactReadable(a) && ArtifactRewritten(a, r)
    ensures KeyLoopPart(a, r)
  {
    assert KeysRewritten(a, r);
  }

  /** An output key written by one input key only holds the value that key writes. */
  lemma RewrittenSole(a: Dict, r: Dict, k: string, t: string, v: Json)
    requires KeyLoopPart(a, r) && t !in Reworked
    requires k in a && Entry(t, v) in ArtifactRule(a)(k, a[k])
    requires forall k', e | k' in a && e in ArtifactRule(a)(k', a[k']) && e.key == t :: e == Entry(t, v)
    ensures t in r && r[t] == v
  {
    assert t in Targets(a, ArtifactRule(a)) - {"attachments"};
    assert t in r.Keys - {"attachments"};
    assert Produces(a, ArtifactRule(a), t, r[t]);
    var k' :| k' in a && Entry(t, r[t]) in ArtifactRule(a)(k', a[k']);
  }

  /** An output key no input key writes is absent (other than `attachments`). */
  lemma RewrittenAbsent(a: Dict, r: Dict, t: string)
    requires KeyLoopPart(a, r) && t != "attachments"
    requires forall k, e | k in a && e in ArtifactRule(a)(k, a[k]) :: e.key != t
    ensures t !in r
  {
    assert t !in Targets(a, ArtifactRule(a)) - {"attachments"};
    assert t !in r.Keys - {"attachments"};
  }

  /** Which input key writes `description`: only `primary_text_html`. */
  lemma DescriptionWriter(original: string, k: string, v: Json, e: Entry)
    requires e in ArtifactEntries(original, k, v) && e.key == "description"
    ensures k == "primary_text_html" && e == Entry("description", Str(MergedDescription(v, original)))
  {
    ArtifactRenamesApart();
  }

  /** The `description` written for an artifact with rich text. */
  function NewDescription(a: Dict): Json
    requires "primary_text_html" in a
  {
    Str(MergedDescription(a["primary_text_html"], OriginalDescription(a)))
  }

  /** Only `primary_text_html` writes `description`, and it writes the merged
      description. */
  lemma DescriptionWriters(a: Dict)
    ensures forall k, e | k in a && e in ArtifactRule(a)(k, a[k]) && e.key == "description" :: k == "primary_text_html"
  {
    forall k, e | k in a && e in ArtifactRule(a)(k, a[k]) && e.key == "description"
      ensures k == "primary_text_html"
    {
      DescriptionWriter(OriginalDescription(a), k, a[k], e);
    }
  }

  /** `primary_text_html` writes `description`. */
  lemma DescriptionWritten(a: Dict)
    requires "primary_text_html" in a
    ensures ArtifactRule(a)("primary_text_html", a["primary_text_html"]) == [Entry("description", NewDescription(a))]
  {
    ArtifactRenamesApart();
    assert "primary_text_html" in ArtifactSpecialKeys;
  }

  /** The input key that wrote an output key the key loop writes. */
  lemma WriterOf(a: Dict, r: Dict, t: string) returns (k: string)
    requires KeyLoopPart(a, r) && t in r && t !in Reworked
    ensures k in a && Entry(t, r[t]) in ArtifactEntries(OriginalDescription(a), k, a[k])
  {
    assert Produces(a, ArtifactRule(a), t, r[t]);
    k :| k in a && Entry(t, r[t]) in ArtifactRule(a)(k, a[k]);
  }

  /** An input key that writes an output key of the key loop, with what it writes. */
  lemma KeyWriterOf(a: Dict, r: Dict, t: string) returns (k: string, e: Entry)
    requires KeyLoopPart(a, r) && t in r && t != "attachments"
    ensures k in a && e in ArtifactEntries(OriginalDescription(a), k, a[k]) && e.key == t
  {
    assert t in r.Keys - {"attachments"};
    assert t in Targets(a, ArtifactRule(a));
    k, e :| k in a && e in ArtifactRule(a)(k, a[k]) && e.key == t;
  }

  /** An output key some input key writes is there (unless it is `attachments`). */
  lemma WrittenPresent(a: Dict, r: Dict, k: string, e: Entry)
    requires KeyLoopPart(a, r) && e.key != "attachments"
    requires k in a && e in ArtifactEntries(OriginalDescription(a), k, a[k])
    ensures e.key in r
  {
    assert e in ArtifactRule(a)(k, a[k]);
    assert e.key in Targets(a, ArtifactRule(a)) - {"attachments"};
  }

  lemma DescriptionPresent(a: Dict, r: Dict)
    requires KeyLoopPart(a, r) && "primary_text_html" in a
    ensures "description" in r && r["description"] == NewDescription(a)
  {
    DescriptionWritten(a);
    WrittenPresent(a, r, "primary_text_html", Entry("description", NewDescription(a)));
    var k := WriterOf(a, r, "description");
    DescriptionWriter(OriginalDescription(a), k, a[k], Entry("description", r["description"]));
  }

  lemma DescriptionAbsent(a: Dict, r: Dict)
    requires KeyLoopPart(a, r) && "primary_text_html" !in a
    ensures "description" !in r
  {
    DescriptionWriters(a);
    RewrittenAbsent(a, r, "description");
  }

  /** The output has a `description` exactly when the input has `primary_text_html`;
      it is the cleaned rich text, followed by the separator and the original
      description only when that is not blank. The input `description` itself is
      never copied. */
  lemma DescriptionFromPrimaryText(a: Dict, r: Dict)
    requires ArtifactReadable(a) && ArtifactRewritten(a, r)
    ensures "description" in r <==> "primary_text_html" in a
    ensures "primary_text_html" in a ==>
      r["description"] == Str(CleanPrimaryHtml(TextOf(a["primary_text_html"])) +
        (if "description" in a && !IsBlank(a["description"].s) then Separator + a["description"].s else ""))
  {
    RewrittenKeyLoopPart(a, r);
    if "primary_text_html" in a {
      DescriptionPresent(a, r);
      StripSlice(OriginalDescription(a));
    } else {
      DescriptionAbsent(a, r);
    }
  }

  /** Which input key writes a key that is renamed: none. */
  lemma RenamedKeyWriter(original: string, k: string, v: Json, e: Entry)
    requires e in ArtifactEntries(original, k, v)
    ensures e.key !in ArtifactKeyRenames && e.key != "primary_text_html"
  {
    ArtifactRenamesApart();
    if k in ArtifactKeyRenames {
      assert e.key == ArtifactKeyRenames[k];
    } else {
      assert e.key == k || e.key in ArtifactSpecialKeys - {"primary_text_html"};
    }
  }

  /** The keys that are renamed, and `primary_text_html`, are gone from the output. */
  lemma RenamedKeysGone(a: Dict, r: Dict)
    requires ArtifactReadable(a) && ArtifactRewritten(a, r)
    ensures forall k | k in ArtifactKeyRenames :: k !in r
    ensures "primary_text_html" !in r
  {
    RewrittenKeyLoopPart(a, r);
    RenamedKeysGoneInLoop(a, r);
  }

  lemma RenamedKeysGoneInLoop(a: Dict, r: Dict)
    requires KeyLoopPart(a, r)
    ensures forall k | k in ArtifactKeyRenames :: k !in r
    ensures "primary_text_html" !in r
  {
    assert "attachments" !in ArtifactKeyRenames;
    forall t | t in ArtifactKeyRenames || t == "primary_text_html" ensures t !in r {
      RenamedKeyAbsent(a, r, t);
    }
  }

  lemma RenamedKeyAbsent(a: Dict, r: Dict, t: string)
    requires KeyLoopPart(a, r)
    requires t in ArtifactKeyRenames || t == "primary_text_html"
    requires t != "attachments"
    ensures t !in r
  {
    if t in r {
      var k, e := KeyWriterOf(a, r, t);
      RenamedKeyWriter(OriginalDescription(a), k, a[k], e);
    }
  }

  /** Which input key writes the new name of a renamed key: the renamed key, or the new
      name itself. */
  lemma RenameTargetWriter(original: string, s: string, k: string, v: Json, e: Entry)
    requires s in ArtifactKeyRenames
    requires e in ArtifactEntries(original, k, v) && e.key == ArtifactKeyRenames[s]
    ensures k == s || (k == e.key && e.value == v)
  {
    ArtifactRenamesApart();
    ArtifactRenamesInjective();
  }

  /** Only the renamed key writes its new name, unless the new name is an input key
      too. */
  lemma RenameTargetWriters(a: Dict, k: string)
    requires k in a && k in ArtifactKeyRenames && ArtifactKeyRenames[k] !in a
    ensures forall k', e | k' in a && e in ArtifactRule(a)(k', a[k']) && e.key == ArtifactKeyRenames[k] ::
      k' == k
  {
    forall k', e | k' in a && e in ArtifactRule(a)(k', a[k']) && e.key == ArtifactKeyRenames[k] ensures k' == k {
      RenameTargetWriter(OriginalDescription(a), k, k', a[k'], e);
    }
  }

  /** A renamed key's value is moved to its new name; under `status` a known status is
      recoded. (When the input also has a key of the new name, the output holds one
      of the two values.) */
  lemma RenamedKeyMoved(a: Dict, r: Dict, k: string)
    requires ArtifactReadable(a) && ArtifactRewritten(a, r)
    requires k in a && k in ArtifactKeyRenames && ArtifactKeyRenames[k] !in a
    ensures ArtifactKeyRenames[k] in r
    ensures r[ArtifactKeyRenames[k]] ==
      if ArtifactKeyRenames[k] == "status" then Recode(ArtifactStatuses, a[k]) else a[k]
  {
    RewrittenKeyLoopPart(a, r);
    RenamedKeyMovedInLoop(a, r, k);
  }

  lemma RenamedKeyMovedInLoop(a: Dict, r: Dict, k: string)
    requires KeyLoopPart(a, r)
    requires k in a && k in ArtifactKeyRenames && ArtifactKeyRenames[k] !in a
    ensures ArtifactKeyRenames[k] in r
    ensures r[ArtifactKeyRenames[k]] ==
      if ArtifactKeyRenames[k] == "status" then Recode(ArtifactStatuses, a[k]) else a[k]
  {
    var t := ArtifactKeyRenames[k];
    var v := if t == "status" then Recode(ArtifactStatuses, a[k]) else a[k];
    ArtifactRenamesApart();
    assert t !in Reworked;
    assert ArtifactRule(a)(k, a[k]) == [Entry(t, v)];
    RenameTargetWriters(a, k);
    RewrittenSole(a, r, k, t, v);
  }

  /** Which input key writes `artifact_type` or `primary_text_html_local`: only itself. */
  lemma RecodedKeyWriter(original: string, t: string, k: string, v: Json, e: Entry)
    requires t == "artifact_type" || t == "primary_text_html_local"
    requires e in ArtifactEntries(original, k, v) && e.key == t
    ensures k == t
    ensures t == "artifact_type" ==> e.value == Recode(ArtifactTypes, v)
    ensures t == "primary_text_html_local" ==> e.value == Str(CleanPrimaryHtml(TextOf(v)))
  {
    ArtifactRenamesApart();
  }

  /** The value `artifact_type` or `primary_text_html_local` is given. */
  function RecodedValue(t: string, v: Json): Json
  {
    if t == "artifact_type" then Recode(ArtifactTypes, v) else Str(CleanPrimaryHtml(TextOf(v)))
  }

  lemma RecodedWriters(a: Dict, t: string)
    requires t == "artifact_type" || t == "primary_text_html_local"
    ensures forall k, e | k in a && e in ArtifactRule(a)(k, a[k]) && e.key == t :: k == t && e == Entry(t, RecodedValue(t, a[t]))
  {
    forall k, e | k in a && e in ArtifactRule(a)(k, a[k]) && e.key == t ensures k == t && e == Entry(t, RecodedValue(t, a[t])) {
      RecodedKeyWriter(OriginalDescription(a), t, k, a[k], e);
    }
  }

  lemma RecodedInLoop(a: Dict, r: Dict, t: string)
    requires KeyLoopPart(a, r)
    requires t == "artifact_type" || t == "primary_text_html_local"
    ensures t in r <==> t in a
    ensures t in a ==> r[t] == RecodedValue(t, a[t])
  {
    RecodedWriters(a, t);
    if t in a {
      ArtifactRenamesApart();
      assert t in ArtifactSpecialKeys;
      assert ArtifactRule(a)(t, a[t]) == [Entry(t, RecodedValue(t, a[t]))];
      RewrittenSole(a, r, t, t, RecodedValue(t, a[t]));
    } else {
      RewrittenAbsent(a, r, t);
    }
  }

  /** `artifact_type` is recoded in place. */
  lemma ArtifactTypeRecoded(a: Dict, r: Dict)
    requires ArtifactReadable(a) && ArtifactRewritten(a, r)
    ensures "artifact_type" in r <==> "artifact_type" in a
    ensures "artifact_type" in a ==> r["artifact_type"] == Recode(ArtifactTypes, a["artifact_type"])
  {
    RewrittenKeyLoopPart(a, r);
    RecodedInLoop(a, r, "artifact_type");
  }

  /** `primary_text_html_local` is cleaned in place. */
  lemma LocalTextCleaned(a: Dict, r: Dict)
    requires ArtifactReadable(a) && ArtifactRewritten(a, r)
    ensures "primary_text_html_local" in r <==> "primary_text_html_local" in a
    ensures "primary_text_html_local" in a ==>
      r["primary_text_html_local"] == Str(CleanPrimaryHtml(TextOf(a["primary_text_html_local"])))
  {
    RewrittenKeyLoopPart(a, r);
    RecodedInLoop(a, r, "primary_text_html_local");
  }

  /** Which input key writes a key that no rule touches: only itself, unchanged, or a
      renamed key whose new name it is. */
  lemma PlainKeyWriter(original: string, t: string, k: string, v: Json, e: Entry)
    requires t !in ArtifactKeyRenames && t !in {"artifact_type", "primary_text_html", "primary_text_html_local", "description"}
    requires e in ArtifactEntries(original, k, v) && e.key == t
    ensures (k == t && e.value == v) || (k in ArtifactKeyRenames && ArtifactKeyRenames[k] == t)
  {
    ArtifactRenamesApart();
  }

  /** Any other key is copied with its value, unless a renamed key of the same artifact
      lands on it. */
  lemma OtherKeysCopied(a: Dict, r: Dict, t: string)
    requires ArtifactReadable(a) && ArtifactRewritten(a, r)
    requires t in a && t !in ArtifactKeyRenames && t !in Reworked
    requires t !in {"artifact_type", "primary_text_html", "primary_text_html_local", "description"}
    requires forall k | k in a && k in ArtifactKeyRenames :: ArtifactKeyRenames[k] != t
    ensures t in r && r[t] == a[t]
  {
    RewrittenKeyLoopPart(a, r);
    PlainKeyWritten(OriginalDescription(a), t, a[t]);
    WrittenPresent(a, r, t, Entry(t, a[t]));
    var k := WriterOf(a, r, t);
    PlainKeyWriter(OriginalDescription(a), t, k, a[k], Entry(t, r[t]));
  }

  /** A key that no rule touches is copied. */
  lemma PlainKeyWritten(original: string, t: string, v: Json)
    requires t !in ArtifactKeyRenames && t !in Reworked
    requires t !in {"artifact_type", "primary_text_html", "primary_text_html_local", "description"}
    ensures ArtifactEntries(original, t, v) == [Entry(t, v)]
  {
  }

  /** `attachments` is in the key loop's output exactly when the artifact has it. */
  lemma AttachmentsTarget(a: Dict)
    ensures "attachments" in Targets(a, ArtifactRule(a)) <==> "attachments" in a
  {
    var rule := ArtifactRule(a);
    if "attachments" in a {
      ReworkedCopied(OriginalDescription(a), "attachments", a["attachments"]);
      assert Entry("attachments", a["attachments"]) in rule("attachments", a["attachments"]);
    } else {
      forall k, e | k in a && e in rule(k, a[k]) ensures e.key != "attachments" {
        if e.key == "attachments" {
          ReworkedOnlyFromThemselves(OriginalDescription(a), k, a[k], e);
        }
      }
    }
  }

  lemma ConcatAssociates(x: seq<Json>, y: seq<Json>, z: seq<Json>)
    ensures x + (y + z) == x + y + z
  {
  }

  /** The records appended, the wrapped resource's first. */
  lemma AttachmentsAppended(a: Dict, r: Dict)
    requires ResourcesReadable(a) && AttachmentsPart(a, r) && ResourcePaths(a) != []
    ensures "attachments" in r
    ensures r["attachments"] == Arr(ExistingAttachments(a) + Records(WrappedPaths(a)) + Records(EmbeddedResourcePaths(a)))
  {
    RecordsConcat(WrappedPaths(a), EmbeddedResourcePaths(a));
    ConcatAssociates(ExistingAttachments(a), Records(WrappedPaths(a)), Records(EmbeddedResourcePaths(a)));
  }

  /** An `attachments` key is created only when there is something to attach; the
      records of the wrapped resource come first, those of the embedded resources
      next, all after the attachments already there. */
  lemma AttachmentsOnlyWhenCollected(a: Dict, r: Dict)
    requires ArtifactReadable(a) && ArtifactRewritten(a, r)
    ensures "attachments" in r <==> "attachments" in a || ResourcePaths(a) != []
    ensures ResourcePaths(a) == [] && "attachments" in a ==> r["attachments"] == a["attachments"]
    ensures ResourcePaths(a) != [] ==>
      r["attachments"] == Arr(ExistingAttachments(a) + Records(WrappedPaths(a)) + Records(EmbeddedResourcePaths(a)))
  {
    assert KeysRewritten(a, r);
    AttachmentsTarget(a);
    assert AttachmentsPart(a, r);
    if ResourcePaths(a) != [] {
      AttachmentsAppended(a, r);
    }
  }
}
