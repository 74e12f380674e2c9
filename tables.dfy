/** The key and value tables of Transformation_Script.py (lines 62-149) and the
    `dict.get(value, value)` lookups made with them. */
module MappingTables {
  import opened JsonValues

  /** `module_mapping`: module keys renamed. */
  const ModuleKeyRenames: map<string, string> := map[
    "module_status" := "status",
    "created_on" := "CreatedOn",
    "modified_on" := "ModifiedOn",
    "created_by" := "createdBy",
    "modified_by" := "ModifiedBy"]

  /** `module_remove_keys`: module keys dropped. */
  const ModuleRemovedKeys: set<string> := {"module_uri", "module_id", "module_format", "linked_artifacts"}

  /** Module keys skipped as well (line 232). */
  const ModuleSkippedKeys: set<string> := {"structure", "artifact_uris_in_module_order"}

  /** `artifact_mapping`: artifact keys renamed. */
  const ArtifactKeyRenames: map<string, string> := map[
    "identifier" := "legacyID",
    "artifact_status" := "status",
    "created_on" := "CreatedOn",
    "modified_on" := "ModifiedOn",
    "created_by" := "createdBy",
    "modified_by" := "ModifiedBy",
    "responsible_group" := "responsibleGroup",
    "key_requirement" := "keyRequirement",
    "review_status" := "reviewStatus",
    "oem_status" := "oemStatus",
    "oem-comment" := "oemComment",
    "supplier_status" := "supplierStatus",
    "supplier-comment" := "supplierComment"]

  /** `module_type_mapping` */
  const ModuleTypes: map<string, string> := map[
    "Admin" := "att",
    "Att" := "att",
    "Des" := "desRS",
    "Dt" := "desTS",
    "Req" := "sthRS",
    "Rt" := "sthTS",
    "Req_Sub" := "sysRS",
    "Spec" := "sysRS",
    "St" := "sysTS"]

  /** `artifact_type_mapping` */
  const ArtifactTypes: map<string, string> := map[
    "Information" := "information",
    "Requirements Test" := "validationTestCase",
    "Note" := "information",
    "Design" := "designRequirement",
    "Specification" := "systemRequirement",
    "Specification Test" := "verificationTestCase",
    "Specification Test Case" := "verificationTestCase",
    "Design Test" := "verificationTestCase",
    "Stakeholder Requirement" := "stakeholderRequirement",
    "Heading" := "heading",
    "Image" := "information"]

  /** `module_status_mapping` */
  const ModuleStatuses: map<string, string> := map[
    "In work" := "draft",
    "In change" := "inReview",
    "Rejected" := "rejected",
    "Released" := "released"]

  /** `artifact_status_mapping` */
  const ArtifactStatuses: map<string, string> := map[
    "In work" := "draft",
    "In change" := "inReview",
    "Approved" := "reviewed",
    "Reviewed" := "reviewed",
    "Released" := "released",
    "Rejected" := "rejected"]

  /** `space_id_mapping`: the target space of each module type. */
  const SpaceIds: map<string, string> := map[
    "Admin" := "_default",
    "Att" := "00 ATT",
    "Des" := "03 Design",
    "Dt" := "04 Verification",
    "Req" := "01 Stakeholder",
    "Rt" := "05 Validation",
    "Req_Sub" := "02 System",
    "Spec" := "02 System",
    "St" := "04 Verification"]

  /** `link_role_mapping` */
  const LinkRoles: map<string, string> := map[
    "derived" := "refine",
    "satisfies" := "satisfy",
    "reference" := "reference",
    "verifies" := "verify"]

  /** The space a module lands in when its type has no entry (line 244). */
  const DefaultSpace: string := "_default"

  /** `table.get(value, value)`, and equally `table[value] if value in table else value`:
      a string the table knows is recoded, any other value passes through. (On a list
      or dict value Python raises `TypeError`; callers rule that out with `Hashable`.) */
  function Recode(table: map<string, string>, v: Json): (r: Json)
    ensures r == v || (v.Str? && v.s in table && r == Str(table[v.s]))
    ensures v.Str? && v.s in table ==> r == Str(table[v.s])
    ensures (v.Str? ==> v.s !in table) ==> r == v
  {
    if v.Str? && v.s in table then Str(table[v.s]) else v
  }

  /** `space_id_mapping.get(value, "_default")`: a known module type selects its
      space; anything else falls back to the default space instead of passing
      through. */
  function SpaceIdFor(moduleType: Json): (r: string)
    ensures r in SpaceIds.Values
    ensures moduleType.Str? && moduleType.s in SpaceIds ==> r == SpaceIds[moduleType.s]
    ensures !(moduleType.Str? && moduleType.s in SpaceIds) ==> r == DefaultSpace
  {
    assert SpaceIds["Admin"] == DefaultSpace;
    if moduleType.Str? && moduleType.s in SpaceIds then SpaceIds[moduleType.s] else DefaultSpace
  }

  /** The artifact keys the transformation treats specially, other than by renaming. */
  const ArtifactSpecialKeys: set<string> := {"description", "artifact_type", "primary_text_html",
    "primary_text_html_local", "linked_artifacts", "children", "attachments"}

  /** No two artifact keys are renamed to the same name. */
  lemma ArtifactRenamesInjective()
    ensures forall k, k' | k in ArtifactKeyRenames && k' in ArtifactKeyRenames && k != k' ::
      ArtifactKeyRenames[k] != ArtifactKeyRenames[k']
  {
  }

  /** A new name is neither a renamed key nor a special key, and a special key is not
      renamed. */
  lemma ArtifactRenamesApart()
    ensures forall k | k in ArtifactKeyRenames ::
      ArtifactKeyRenames[k] !in ArtifactKeyRenames && ArtifactKeyRenames[k] !in ArtifactSpecialKeys
    ensures forall k | k in ArtifactSpecialKeys :: k !in ArtifactKeyRenames
  {
    NewNamesNotRenamed();
    NewNamesNotSpecial();
    SpecialKeysNotRenamed();
  }

  /** No new name of an artifact key is itself renamed. */
  lemma NewNamesNotRenamed()
    ensures forall k | k in ArtifactKeyRenames :: ArtifactKeyRenames[k] !in ArtifactKeyRenames
  {
  }

  /** No new name of an artifact key is a special key. */
  lemma NewNamesNotSpecial()
    ensures forall k | k in ArtifactKeyRenames :: ArtifactKeyRenames[k] !in ArtifactSpecialKeys
  {
  }

  /** No special artifact key is renamed. */
  lemma SpecialKeysNotRenamed()
    ensures forall k | k in ArtifactSpecialKeys :: k !in ArtifactKeyRenames
  {
  }

  /** The module keys the transformation treats specially, other than by renaming. */
  const ModuleSpecialKeys: set<string> := {"module_type", "space_id", "module_title", "artifacts"}

  /** No two module keys are renamed to the same name. */
  lemma ModuleRenamesInjective()
    ensures forall k, k' | k in ModuleKeyRenames && k' in ModuleKeyRenames && k != k' ::
      ModuleKeyRenames[k] != ModuleKeyRenames[k']
  {
  }

  /** A new name is neither a renamed, dropped or special key; dropped and special keys
      are not renamed. */
  lemma ModuleRenamesApart()
    ensures forall k | k in ModuleKeyRenames ::
      && ModuleKeyRenames[k] !in ModuleKeyRenames
      && ModuleKeyRenames[k] !in ModuleRemovedKeys + ModuleSkippedKeys + ModuleSpecialKeys
    ensures forall k | k in ModuleRemovedKeys + ModuleSkippedKeys + ModuleSpecialKeys :: k !in ModuleKeyRenames
  {
  }

  /** The keys `transform_json` tests one after the other fall in one branch each, and
      only `module_status` is renamed to `status`. */
  lemma ModuleBranchesApart()
    ensures forall k | k in ModuleSpecialKeys :: k !in ModuleRemovedKeys && k !in ModuleSkippedKeys
    ensures forall k | k in ModuleKeyRenames :: k !in ModuleRemovedKeys && k !in ModuleSkippedKeys
    ensures forall k | k in ModuleKeyRenames :: (ModuleKeyRenames[k] == "status" <==> k == "module_status")
  {
  }

  /** Every module type has a space, and only module types have one. */
  lemma SpacesMatchModuleTypes()
    ensures SpaceIds.Keys == ModuleTypes.Keys
  {
  }

  /** The module status table is the artifact status table without the two review
      states. */
  lemma StatusTablesAgree()
    ensures forall k | k in ModuleStatuses :: k in ArtifactStatuses && ArtifactStatuses[k] == ModuleStatuses[k]
    ensures ArtifactStatuses.Keys - ModuleStatuses.Keys == {"Approved", "Reviewed"}
  {
    assert ArtifactStatuses.Keys == ModuleStatuses.Keys + {"Approved", "Reviewed"};
  }

  /** Worked lookups: `"Req"` becomes type `"sthRS"` in space `"01 Stakeholder"`,
      `"Approved"` becomes `"reviewed"`, an unknown type passes through but gets the
      default space. */
  lemma LookupExamples()
    ensures Recode(ModuleTypes, Str("Req")) == Str("sthRS")
    ensures SpaceIdFor(Str("Req")) == "01 Stakeholder"
    ensures Recode(ArtifactStatuses, Str("Approved")) == Str("reviewed")
    ensures Recode(ModuleStatuses, Str("Approved")) == Str("Approved")
    ensures Recode(ModuleTypes, Str("Custom")) == Str("Custom")
    ensures SpaceIdFor(Str("Custom")) == DefaultSpace
    ensures Recode(LinkRoles, Num(3)) == Num(3)
  {
    assert "Req" in ModuleTypes && "Req" in SpaceIds && "Approved" in ArtifactStatuses;
    assert "Approved" !in ModuleStatuses;
    assert "Custom" !in ModuleTypes && "Custom" !in SpaceIds;
  }
}
