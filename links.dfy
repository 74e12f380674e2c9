/** `transform_linked_artifact` of Transformation_Script.py (lines 153-164): the
    rewrite of one link edge of an artifact. */
module LinkTransform {
  import opened JsonValues
  import opened MappingTables
  import opened Rekey

  /** The link keys dropped (line 160). */
  const DroppedLinkKeys: set<string> := {"uri", "title", "link_role_uri", "link_role_label", "direction"}

  /** What one iteration of the loop inserts for `key: value`. */
  function LinkEntries(key: string, value: Json): seq<Entry>
  {
    if key == "identifier" then [Entry("legacyID", value)]
    else if key == "link_role" then [Entry("link_role", Recode(LinkRoles, value))]
    else if key in DroppedLinkKeys then []
    else [Entry(key, value)]
  }

  /** The link can be rewritten without an exception: its role is hashable (it is
      looked up with `dict.get`). */
  predicate LinkReadable(link: Dict)
  {
    "link_role" in link ==> Hashable(link["link_role"])
  }

  /** The body of the loop of lines 155-163: what is inserted for one `key: value`. */
  method InsertLinkItem(newLink: Dict, key: string, value: Json) returns (r: Dict)
    ensures r == Put(newLink, LinkEntries(key, value))
  {
    r := newLink;
    if key == "identifier" {
      r := r["legacyID" := value];
      PutSmall(newLink, Entry("legacyID", value));
    } else if key == "link_role" {
      r := r["link_role" := Recode(LinkRoles, value)];
      PutSmall(newLink, Entry("link_role", Recode(LinkRoles, value)));
    } else if key in DroppedLinkKeys {
      PutSmall(newLink, Entry(key, value));
    } else {
      r := r[key := value];
      PutSmall(newLink, Entry(key, value));
    }
  }

  /** `transform_linked_artifact(link)` */
  method TransformLinkedArtifact(link: Dict) returns (newLink: Dict)
    requires LinkReadable(link)
    ensures RekeyedBy(link, LinkEntries, newLink)
  {
    newLink := map[];
    var todo := link.Keys;
    RekeyLoopStart(link, LinkEntries);
    while todo != {}
      invariant RekeyedSoFar(link, LinkEntries, todo, newLink)
      decreases |todo|
    {
      var key :| key in todo;
      RekeyLoopStep(link, LinkEntries, todo, newLink, key);
      newLink := InsertLinkItem(newLink, key, link[key]);
      todo := todo - {key};
    }
    RekeyLoopEnd(link, LinkEntries, newLink);
  }

  /** The five dropped keys and `identifier` are gone from the rewritten link. */
  lemma LinkDropsKeys(link: Dict, r: Dict)
    requires RekeyedBy(link, LinkEntries, r)
    ensures forall k | k in DroppedLinkKeys :: k !in r
    ensures "identifier" !in r
  {
    forall t | t in DroppedLinkKeys + {"identifier"} ensures t !in r {
      forall k | k in link ensures forall e | e in LinkEntries(k, link[k]) :: e.key != t {
        LinkGoneWriter(t, k, link[k]);
      }
      RekeyedAbsent(link, LinkEntries, r, t);
    }
  }

  /** No branch of the loop writes a dropped key or `identifier`. */
  lemma LinkGoneWriter(t: string, k: string, v: Json)
    requires t in DroppedLinkKeys + {"identifier"}
    ensures forall e | e in LinkEntries(k, v) :: e.key != t
  {
    if k !in DroppedLinkKeys && k != "identifier" && k != "link_role" {
      assert LinkEntries(k, v) == [Entry(k, v)];
    }
  }

  /** `identifier` reappears as `legacyID`, and the role is recoded. */
  lemma LinkRenamesAndRecodes(link: Dict, r: Dict)
    requires RekeyedBy(link, LinkEntries, r)
    ensures "identifier" in link && "legacyID" !in link ==> "legacyID" in r && r["legacyID"] == link["identifier"]
    ensures "link_role" in link ==> "link_role" in r && r["link_role"] == Recode(LinkRoles, link["link_role"])
  {
    if "identifier" in link && "legacyID" !in link {
      RekeyedSole(link, LinkEntries, r, "identifier", "legacyID", link["identifier"]);
    }
    if "link_role" in link {
      RekeyedSole(link, LinkEntries, r, "link_role", "link_role", Recode(LinkRoles, link["link_role"]));
    }
  }

  /** Every other key keeps its value, and no key appears that the link did not have,
      besides `legacyID`. */
  lemma LinkCopiesTheRest(link: Dict, r: Dict)
    requires RekeyedBy(link, LinkEntries, r)
    ensures forall k | k in link && k !in DroppedLinkKeys && k !in {"identifier", "link_role", "legacyID"} :: k in r && r[k] == link[k]
    ensures forall k | k in r :: k in link || k == "legacyID"
  {
    forall k | k in link && k !in DroppedLinkKeys && k !in {"identifier", "link_role", "legacyID"}
      ensures k in r && r[k] == link[k]
    {
      RekeyedSole(link, LinkEntries, r, k, k, link[k]);
    }
  }

  /** A link holding both `identifier` and `legacyID` ends up with one of the two
      values under `legacyID`, depending on the order of its keys. */
  lemma LegacyIdCollision(link: Dict, r: Dict)
    requires RekeyedBy(link, LinkEntries, r)
    requires "identifier" in link
    ensures "legacyID" in r
    ensures r["legacyID"] == link["identifier"] || ("legacyID" in link && r["legacyID"] == link["legacyID"])
  {
    assert Entry("legacyID", link["identifier"]) in LinkEntries("identifier", link["identifier"]);
    assert "legacyID" in Targets(link, LinkEntries);
    var k :| k in link && Entry("legacyID", r["legacyID"]) in LinkEntries(k, link[k]);
  }
}
