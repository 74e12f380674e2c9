/** What `transform_json` (Transformation_Script.py, lines 227-251) promises about the
    module it returns. Apart from the artifact list, these follow from the keys
    alone (`ModuleKeysRewritten`, part of `ModuleRewritten`). */
module ModuleFacts {
  import opened JsonValues
  import opened MappingTables
  import opened Rekey
  import opened ArtifactTransform
  import opened ModuleTransform

  /** An output key yielded by one input key only holds the value that key gives it. */
  lemma ModuleSole(d: Dict, r: Dict, k: string, t: string, v: Json)
    requires ModuleKeysRewritten(d, r) && t != "artifacts"
    requires k in d && Entry(t, v) in ModuleEntries(k, d[k])
    requires forall k', e | k' in d && e in ModuleEntries(k', d[k']) && e.key == t :: e == Entry(t, v)
    ensures t in r && r[t] == v
  {
    assert t in Targets(d, ModuleEntries);
    var k' :| k' in d && Entry(t, r[t]) in ModuleEntries(k', d[k']);
  }

  /** An output key no input key yields is absent. */
  lemma ModuleAbsent(d: Dict, r: Dict, t: string)
    requires ModuleKeysRewritten(d, r)
    requires forall k, e | k in d && e in ModuleEntries(k, d[k]) :: e.key != t
    ensures t !in r
  {
    assert t !in Targets(d, ModuleEntries);
  }

  /** A dropped, skipped or renamed key is written by no branch of the loop. */
  lemma GoneKeyWriter(t: string, k: string, v: Json)
    requires t in ModuleRemovedKeys + ModuleSkippedKeys || t in ModuleKeyRenames
    ensures forall e | e in ModuleEntries(k, v) :: e.key != t
  {
    ModuleRenamesApart();
    ModuleBranchesApart();
  }

  /** The dropped keys (line 230), the skipped ones (line 232) and the renamed ones
      (line 234) are all gone from the module. */
  lemma ModuleDropsKeys(d: Dict, r: Dict)
    requires ModuleKeysRewritten(d, r)
    ensures forall t | t in ModuleRemovedKeys + ModuleSkippedKeys :: t !in r
    ensures forall t | t in ModuleKeyRenames :: t !in r
  {
    forall t | t in ModuleRemovedKeys + ModuleSkippedKeys || t in ModuleKeyRenames ensures t !in r {
      forall k | k in d ensures forall e | e in ModuleEntries(k, d[k]) :: e.key != t {
        GoneKeyWriter(t, k, d[k]);
      }
      ModuleAbsent(d, r, t);
    }
  }

  /** Only the input key `module_type` writes the output key `module_type`. */
  lemma ModuleTypeWriter(k: string, v: Json)
    ensures forall e | e in ModuleEntries(k, v) && e.key == "module_type" ::
      k == "module_type" && e.value == Recode(ModuleTypes, v)
  {
    ModuleRenamesApart();
  }

  /** The module type is recoded with `module_type_mapping` (line 241). */
  lemma ModuleTypeRecoded(d: Dict, r: Dict)
    requires ModuleKeysRewritten(d, r)
    ensures "module_type" in r <==> "module_type" in d
    ensures "module_type" in d ==> r["module_type"] == Recode(ModuleTypes, d["module_type"])
  {
    forall k | k in d ensures forall e | e in ModuleEntries(k, d[k]) && e.key == "module_type" ::
      k == "module_type" && e.value == Recode(ModuleTypes, d[k])
    {
      ModuleTypeWriter(k, d[k]);
    }
    if "module_type" in d {
      ModuleSole(d, r, "module_type", "module_type", Recode(ModuleTypes, d["module_type"]));
    } else {
      ModuleAbsent(d, r, "module_type");
    }
  }

  /** Only `module_type`, and an input key `space_id` itself, write `space_id`. */
  lemma SpaceIdWriter(k: string, v: Json)
    ensures forall e | e in ModuleEntries(k, v) && e.key == "space_id" ::
      (k == "module_type" && e.value == Str(SpaceIdFor(v))) || (k == "space_id" && e.value == v)
  {
    ModuleRenamesApart();
  }

  /** A module without a `space_id` of its own gets one exactly when it has a type:
      the space of that type, or `_default` (lines 243-244). */
  lemma SpaceIdFromModuleType(d: Dict, r: Dict)
    requires ModuleKeysRewritten(d, r)
    requires "space_id" !in d
    ensures "space_id" in r <==> "module_type" in d
    ensures "module_type" in d ==> r["space_id"] == Str(SpaceIdFor(d["module_type"]))
  {
    forall k | k in d ensures forall e | e in ModuleEntries(k, d[k]) && e.key == "space_id" ::
      k == "module_type" && e.value == Str(SpaceIdFor(d[k]))
    {
      SpaceIdWriter(k, d[k]);
    }
    if "module_type" in d {
      ModuleSole(d, r, "module_type", "space_id", Str(SpaceIdFor(d["module_type"])));
    } else {
      ModuleAbsent(d, r, "space_id");
    }
  }

  /** A module with both a type and a `space_id` of its own ends up with one of the two
      spaces, depending on the order of its keys. */
  lemma SpaceIdCollision(d: Dict, r: Dict)
    requires ModuleKeysRewritten(d, r)
    requires "module_type" in d && "space_id" in d
    ensures "space_id" in r
    ensures r["space_id"] == Str(SpaceIdFor(d["module_type"])) || r["space_id"] == d["space_id"]
  {
    SpaceIdTargeted(d);
    var k := ModuleWriter(d, r, "space_id");
    SpaceIdWriter(k, d[k]);
  }

  /** A module with a type yields `space_id`. */
  lemma SpaceIdTargeted(d: Dict)
    requires "module_type" in d
    ensures "space_id" in Targets(d, ModuleEntries)
  {
    assert Entry("space_id", Str(SpaceIdFor(d["module_type"]))) in ModuleEntries("module_type", d["module_type"]);
  }

  /** An input key that gives an output key (other than `artifacts`) its value. */
  lemma ModuleWriter(d: Dict, r: Dict, t: string) returns (k: string)
    requires ModuleKeysRewritten(d, r)
    requires t in Targets(d, ModuleEntries) && t != "artifacts"
    ensures t in r && k in d && Entry(t, r[t]) in ModuleEntries(k, d[k])
  {
    assert Produces(d, ModuleEntries, t, r[t]);
    k :| k in d && Entry(t, r[t]) in ModuleEntries(k, d[k]);
  }

  /** Only the key renamed to `t`, and an input key `t` itself, write `t`. */
  lemma RenameTargetWriter(src: string, k: string, v: Json)
    requires src in ModuleKeyRenames
    ensures forall e | e in ModuleEntries(k, v) && e.key == ModuleKeyRenames[src] ::
      (k == src && e.value == (if ModuleKeyRenames[src] == "status" then Recode(ModuleStatuses, v) else v))
      || (k == ModuleKeyRenames[src] && e.value == v)
  {
    ModuleRenamesApart();
    ModuleRenamesInjective();
  }

  /** A renamed key reappears under its new name (line 235), its value recoded with
      `module_status_mapping` when the new name is `status` (lines 237-238), unless
      the module already holds the new name. */
  lemma ModuleRenamedKeyMoved(d: Dict, r: Dict, k: string)
    requires ModuleKeysRewritten(d, r)
    requires k in ModuleKeyRenames && k in d && ModuleKeyRenames[k] !in d
    ensures ModuleKeyRenames[k] in r
    ensures r[ModuleKeyRenames[k]] ==
      if ModuleKeyRenames[k] == "status" then Recode(ModuleStatuses, d[k]) else d[k]
  {
    var t := ModuleKeyRenames[k];
    var v := if t == "status" then Recode(ModuleStatuses, d[k]) else d[k];
    forall k' | k' in d ensures forall e | e in ModuleEntries(k', d[k']) && e.key == t :: e == Entry(t, v) {
      RenameTargetWriter(k, k', d[k']);
    }
    ModuleRenamesApart();
    ModuleBranchesApart();
    assert ModuleEntries(k, d[k]) == [Entry(t, v)];
    ModuleSole(d, r, k, t, v);
  }

  /** A key no branch treats specially is written only by itself. */
  lemma PlainKeyWriter(t: string, k: string, v: Json)
    requires t !in ModuleRemovedKeys + ModuleSkippedKeys && t !in ModuleKeyRenames
    requires t != "module_type" && t != "space_id"
    requires k in ModuleKeyRenames ==> ModuleKeyRenames[k] != t
    ensures forall e | e in ModuleEntries(k, v) && e.key == t :: k == t && e.value == v
  {
  }

  /** Every other key, the title included (line 246), is copied with its value,
      unless a renamed key lands on it. A `space_id` of the module's own is copied when
      the module has no type. */
  lemma ModuleOtherKeysCopied(d: Dict, r: Dict, t: string)
    requires ModuleKeysRewritten(d, r)
    requires t in d && t !in ModuleRemovedKeys + ModuleSkippedKeys && t !in ModuleKeyRenames
    requires t != "module_type" && t != "artifacts"
    requires t == "space_id" ==> "module_type" !in d
    requires forall k | k in ModuleKeyRenames && k in d :: ModuleKeyRenames[k] != t
    ensures t in r && r[t] == d[t]
  {
    if t == "space_id" {
      forall k | k in d ensures forall e | e in ModuleEntries(k, d[k]) && e.key == t :: e == Entry(t, d[t]) {
        SpaceIdWriter(k, d[k]);
      }
    } else {
      forall k | k in d ensures forall e | e in ModuleEntries(k, d[k]) && e.key == t :: e == Entry(t, d[t]) {
        PlainKeyWriter(t, k, d[k]);
      }
    }
    ModuleBranchesApart();
    assert ModuleEntries(t, d[t]) == [Entry(t, d[t])];
    ModuleSole(d, r, t, t, d[t]);
  }

  /** Nothing appears that the module did not hold, besides the new names of renamed
      keys and `space_id`. */
  lemma ModuleKeysFrom(d: Dict, r: Dict)
    requires ModuleKeysRewritten(d, r)
    ensures forall t | t in r :: t in d || t in ModuleKeyRenames.Values || t == "space_id"
  {
    forall t | t in r ensures t in d || t in ModuleKeyRenames.Values || t == "space_id" {
      assert t in Targets(d, ModuleEntries);
      var k, e :| k in d && e in ModuleEntries(k, d[k]) && e.key == t;
    }
  }

  /** The artifacts stay exactly when the module has them: a list rewritten artifact by
      artifact, in order (line 248), anything else copied. */
  lemma ModuleArtifactsRewritten(d: Dict, r: Dict)
    requires ModuleReadable(d) && ModuleRewritten(d, r)
    ensures "artifacts" in r <==> "artifacts" in d
    ensures "artifacts" in d && d["artifacts"].Arr? ==>
      r["artifacts"].Arr? && |r["artifacts"].items| == |d["artifacts"].items|
    ensures "artifacts" in d && !d["artifacts"].Arr? ==> r["artifacts"] == d["artifacts"]
  {
    if "artifacts" in r {
      var k, e :| k in d && e in ModuleEntries(k, d[k]) && e.key == "artifacts";
      ArtifactsOnlyFromThemselves(k, d[k]);
    }
  }
}
