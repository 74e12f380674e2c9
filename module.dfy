/** `transform_json` of Transformation_Script.py (lines 227-251): the rewrite of one
    module document, and with it the rewrite of its artifact tree. */
module ModuleTransform {
  import opened JsonValues
  import opened MappingTables
  import opened Rekey
  import opened ArtifactTransform

  /** What one iteration of the key loop inserts for `key: value`. The artifact list is
      copied here and rewritten by the loop itself (line 248); `ModuleRewritten` says
      what it becomes. */
  function ModuleEntries(key: string, value: Json): seq<Entry>
  {
    if key in ModuleRemovedKeys || key in ModuleSkippedKeys then []
    else if key in ModuleKeyRenames then
      var newKey := ModuleKeyRenames[key];
      [Entry(newKey, if newKey == "status" then Recode(ModuleStatuses, value) else value)]
    else if key == "module_type" then
      [Entry("module_type", Recode(ModuleTypes, value)), Entry("space_id", Str(SpaceIdFor(value)))]
    else [Entry(key, value)]
  }

  /** The module can be rewritten without an exception: its status and type are
      hashable (they are looked up in a table) and a list of artifacts holds artifacts
      that can be rewritten. */
  predicate ModuleReadable(d: Dict)
  {
    && ("module_status" in d ==> Hashable(d["module_status"]))
    && ("module_type" in d ==> Hashable(d["module_type"]))
    && ("artifacts" in d && d["artifacts"].Arr? ==> ForestReadable(d["artifacts"].items))
  }

  /** The value under `artifacts` after the loop: a list is rewritten artifact by
      artifact, anything else is copied (line 250). */
  ghost predicate ArtifactsDone(v: Json, w: Json)
    requires v.Arr? ==> ForestReadable(v.items)
  {
    if v.Arr? then ForestRewritten(v.items, w) else w == v
  }

  /** `r` is what `transform_json(d)` returns: the keys the rule yields, each holding
      a value one of the input keys gives it, except the artifact list, which is
      rewritten. */
  ghost predicate ModuleRewritten(d: Dict, r: Dict)
    requires ModuleReadable(d)
  {
    && ModuleKeysRewritten(d, r)
    && ("artifacts" in d ==> "artifacts" in r && ArtifactsDone(d["artifacts"], r["artifacts"]))
  }

  /** The part of `ModuleRewritten` that speaks of the keys the rule writes: all of
      them are there, and every value but the artifact list is one the rule gives. */
  ghost predicate ModuleKeysRewritten(d: Dict, r: Dict)
  {
    && r.Keys == Targets(d, ModuleEntries)
    && (forall t | t in r && t != "artifacts" :: Produces(d, ModuleEntries, t, r[t]))
  }

  /** Only the input key `artifacts` yields the output key `artifacts`. */
  lemma ArtifactsOnlyFromThemselves(key: string, value: Json)
    ensures key != "artifacts" ==> forall e | e in ModuleEntries(key, value) :: e.key != "artifacts"
    ensures ModuleEntries("artifacts", value) == [Entry("artifacts", value)]
  {
    ModuleRenamesApart();
  }

  /** The branches of the key loop's body (lines 229-250) other than the list of
      artifacts: exactly what the rule inserts for `key: value`. */
  method InsertRuleItem(newData: Dict, key: string, value: Json) returns (r: Dict)
    requires !(key == "artifacts" && value.Arr?)
    ensures r == Put(newData, ModuleEntries(key, value))
  {
    r := newData;
    if key in ModuleRemovedKeys {
      assert ModuleEntries(key, value) == [];
      PutSmall(newData, Entry(key, value));
    } else if key in {"structure", "artifact_uris_in_module_order"} {
      assert ModuleEntries(key, value) == [];
      PutSmall(newData, Entry(key, value));
    } else if key in ModuleKeyRenames {
      var newKey := ModuleKeyRenames[key];
      var newValue := value;
      if newKey == "status" && value.Str? && value.s in ModuleStatuses {
        newValue := Str(ModuleStatuses[value.s]);
      }
      assert ModuleEntries(key, value) == [Entry(newKey, newValue)];
      r := r[newKey := newValue];
      PutSmall(newData, Entry(newKey, newValue));
    } else if key == "module_type" {
      var mappedType := Recode(ModuleTypes, value);
      assert ModuleEntries(key, value) == [Entry(key, mappedType), Entry("space_id", Str(SpaceIdFor(value)))];
      r := r[key := mappedType];
      r := r["space_id" := Str(SpaceIdFor(value))];
      PutPair(newData, Entry(key, mappedType), Entry("space_id", Str(SpaceIdFor(value))));
    } else if key == "module_title" {
      assert ModuleEntries(key, value) == [Entry(key, value)];
      r := r[key := value];
      PutSmall(newData, Entry(key, value));
    } else {
      assert ModuleEntries(key, value) == [Entry(key, value)];
      r := r[key := value];
      PutSmall(newData, Entry(key, value));
    }
  }

  /** The body of the key loop (lines 229-250). `artifacts` is none of the keys the
      branches before line 247 test, so testing it first takes the same branch. */
  method InsertModuleItem(newData: Dict, key: string, value: Json) returns (r: Dict)
    requires key == "artifacts" && value.Arr? ==> ForestReadable(value.items)
    ensures !(key == "artifacts" && value.Arr?) ==> r == Put(newData, ModuleEntries(key, value))
    ensures key == "artifacts" && value.Arr? ==>
      "artifacts" in r && r == newData["artifacts" := r["artifacts"]] && ForestRewritten(value.items, r["artifacts"])
  {
    if key == "artifacts" && value.Arr? {
      var ws := TransformArtifactList(value.items);
      r := newData["artifacts" := Arr(ws)];
    } else {
      r := InsertRuleItem(newData, key, value);
    }
  }

  /** One iteration keeps the loop's dict agreeing with the rule's everywhere but at
      `artifacts`, and leaves an earlier `artifacts` alone. */
  lemma ShadowStep(shadow: Dict, n: Dict, key: string, value: Json, r: Dict)
    requires AgreeBut(shadow, n, "artifacts")
    requires !(key == "artifacts" && value.Arr?) ==> r == Put(n, ModuleEntries(key, value))
    requires key == "artifacts" && value.Arr? ==> "artifacts" in r && r == n["artifacts" := r["artifacts"]]
    ensures AgreeBut(Put(shadow, ModuleEntries(key, value)), r, "artifacts")
    ensures key != "artifacts" ==> ("artifacts" in r <==> "artifacts" in n)
    ensures key != "artifacts" && "artifacts" in n ==> r["artifacts"] == n["artifacts"]
  {
    ArtifactsOnlyFromThemselves(key, value);
    if key == "artifacts" && value.Arr? {
      PutSmall(shadow, Entry(key, value));
    } else {
      PutKeepsAgreement(shadow, n, ModuleEntries(key, value), "artifacts");
    }
  }

  /** One iteration keeps `artifacts`, once it is there, rewritten. */
  lemma ArtifactsStep(d: Dict, n: Dict, key: string, r: Dict)
    requires ModuleReadable(d) && key in d
    requires "artifacts" in n ==> "artifacts" in d && ArtifactsDone(d["artifacts"], n["artifacts"])
    requires !(key == "artifacts" && d[key].Arr?) ==> r == Put(n, ModuleEntries(key, d[key]))
    requires key == "artifacts" && d[key].Arr? ==> "artifacts" in r && ForestRewritten(d[key].items, r["artifacts"])
    requires key != "artifacts" ==> ("artifacts" in r <==> "artifacts" in n)
    requires key != "artifacts" && "artifacts" in n ==> r["artifacts"] == n["artifacts"]
    ensures "artifacts" in r ==> "artifacts" in d && ArtifactsDone(d["artifacts"], r["artifacts"])
  {
    if key == "artifacts" && !d[key].Arr? {
      ArtifactsOnlyFromThemselves(key, d[key]);
      PutSmall(n, Entry(key, d[key]));
    }
  }

  /** After the loop, the loop's dict is the module rewritten. */
  lemma ModuleLoopEnd(d: Dict, shadow: Dict, n: Dict)
    requires ModuleReadable(d)
    requires RekeyedBy(d, ModuleEntries, shadow)
    requires AgreeBut(shadow, n, "artifacts")
    requires "artifacts" in n ==> "artifacts" in d && ArtifactsDone(d["artifacts"], n["artifacts"])
    ensures ModuleRewritten(d, n)
  {
    if "artifacts" in d {
      ArtifactsOnlyFromThemselves("artifacts", d["artifacts"]);
      assert Entry("artifacts", d["artifacts"]) in ModuleEntries("artifacts", d["artifacts"]);
      assert "artifacts" in Targets(d, ModuleEntries);
    }
  }

  /** The key loop's invariant: the rule's dict describes the visited keys, the
      loop's dict agrees with it but at `artifacts`, and an `artifacts` already there
      is rewritten. */
  ghost predicate ModuleLoopInvariant(data: Dict, todo: set<string>, shadow: Dict, n: Dict)
    requires ModuleReadable(data)
  {
    && RekeyedSoFar(data, ModuleEntries, todo, shadow)
    && AgreeBut(shadow, n, "artifacts")
    && ("artifacts" in n ==> "artifacts" in data && ArtifactsDone(data["artifacts"], n["artifacts"]))
  }

  /** One iteration of the key loop keeps its invariant. */
  lemma ModuleLoopStep(data: Dict, todo: set<string>, shadow: Dict, n: Dict, key: string, r: Dict)
    requires ModuleReadable(data) && ModuleLoopInvariant(data, todo, shadow, n) && key in todo
    requires !(key == "artifacts" && data[key].Arr?) ==> r == Put(n, ModuleEntries(key, data[key]))
    requires key == "artifacts" && data[key].Arr? ==>
      "artifacts" in r && r == n["artifacts" := r["artifacts"]] && ForestRewritten(data[key].items, r["artifacts"])
    ensures ModuleLoopInvariant(data, todo - {key}, Put(shadow, ModuleEntries(key, data[key])), r)
  {
    RekeyLoopStep(data, ModuleEntries, todo, shadow, key);
    ShadowStep(shadow, n, key, data[key], r);
    ArtifactsStep(data, n, key, r);
  }

  /** `transform_json(data)` */
  method TransformJson(data: Dict) returns (newData: Dict)
    requires ModuleReadable(data)
    ensures ModuleRewritten(data, newData)
  {
    newData := map[];
    ghost var shadow: Dict := map[];
    var todo := data.Keys;
    RekeyLoopStart(data, ModuleEntries);
    while todo != {}
      invariant ModuleLoopInvariant(data, todo, shadow, newData)
      decreases |todo|
    {
      var key :| key in todo;
      ghost var before := newData;
      newData := InsertModuleItem(newData, key, data[key]);
      ModuleLoopStep(data, todo, shadow, before, key, newData);
      shadow := Put(shadow, ModuleEntries(key, data[key]));
      todo := todo - {key};
    }
    RekeyLoopEnd(data, ModuleEntries, shadow);
    ModuleLoopEnd(data, shadow, newData);
  }
}
