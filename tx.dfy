/** The cleaning pass of tx.py (`process_json_file`, lines 62-74): the rich-text fields
    of a loaded document are cleaned in place with `clean_html`, artifact by artifact
    when the document holds a list of artifacts, at the top level otherwise. Reading
    and writing the files is not part of this model. */
module LegacyDocument {
  import opened Text
  import opened JsonValues
  import opened Attachments
  import opened LegacyCleaner

  const RichText: string := "primary_text_html"
  const LocalRichText: string := "primary_text_html_local"

  /** `d` with `d[k] = clean_html(d[k])` applied when `k` is present. On a falsy value
      `clean_html` returns `""` (line 16). */
  function CleanField(d: Dict, k: string): Dict
  {
    if k in d then d[k := Str(CleanHtml(TextOf(d[k])))] else d
  }

  /** Both rich-text fields of `d` cleaned, in the order of lines 65-68 (or 71-74). */
  function CleanRichText(d: Dict): Dict
  {
    CleanField(CleanField(d, RichText), LocalRichText)
  }

  /** The present rich-text fields are strings or falsy: on any other value
      `clean_html` raises. */
  predicate FieldsCleanable(d: Dict)
  {
    && (RichText in d ==> TextLike(d[RichText]))
    && (LocalRichText in d ==> TextLike(d[LocalRichText]))
  }

  /** One element of the artifact list can be cleaned without an exception. On a dict
      `in` tests keys; on a string it tests for a substring and the assignment that
      follows raises; on a list it tests membership and the assignment raises; on
      anything else `in` raises. */
  predicate ElementCleanable(v: Json)
  {
    match v
    case Obj(f) => FieldsCleanable(f)
    case Str(s) => !Occurs(s, RichText)
    case Arr(xs) => Str(RichText) !in xs && Str(LocalRichText) !in xs
    case _ => false
  }

  /** One element after lines 65-68: a dict has its rich text cleaned, anything else is
      left alone. */
  function CleanedElement(v: Json): Json
  {
    if v.Obj? then Obj(CleanRichText(v.fields)) else v
  }

  /** The document's `artifacts` is a list (line 62). */
  predicate HasArtifactList(doc: Json)
  {
    doc.Obj? && "artifacts" in doc.fields && doc.fields["artifacts"].Arr?
  }

  /** The pass raises no exception. A document that is not a dict fails already at
      `data.get`. */
  predicate Cleanable(doc: Json)
  {
    && doc.Obj?
    && if HasArtifactList(doc)
       then forall i | 0 <= i < |doc.fields["artifacts"].items| :: ElementCleanable(doc.fields["artifacts"].items[i])
       else FieldsCleanable(doc.fields)
  }

  /** The list with its first `n` elements cleaned. */
  function CleanedPrefix(items: seq<Json>, n: nat): seq<Json>
  {
    seq(|items|, j requires 0 <= j < |items| => if j < n then CleanedElement(items[j]) else items[j])
  }

  /** The document after the pass. */
  function CleanedDocument(doc: Json): Json
    requires doc.Obj?
  {
    if HasArtifactList(doc) then
      var items := doc.fields["artifacts"].items;
      Obj(doc.fields["artifacts" := Arr(CleanedPrefix(items, |items|))])
    else Obj(CleanRichText(doc.fields))
  }

  /** A document loaded by `json.load`, as `process_json_file` holds it in memory. */
  class JsonDocument {
    var data: Json

    constructor(data: Json)
      ensures this.data == data
    {
      this.data := data;
    }

    /** Lines 62-74. `ok` is false when the pass raises; the exception handler then
        prints a message and nothing is written. */
    method CleanRichTextFields() returns (ok: bool)
      modifies this
      ensures ok == Cleanable(old(data))
      ensures ok ==> old(data).Obj? && data == CleanedDocument(old(data))
    {
      if !data.Obj? {
        return false;
      }
      var fields := data.fields;
      if "artifacts" in fields && fields["artifacts"].Arr? {
        var items := fields["artifacts"].items;
        assert fields["artifacts" := Arr(CleanedPrefix(items, 0))] == fields by {
          assert CleanedPrefix(items, 0) == items;
        }
        var i := 0;
        while i < |items|
          invariant 0 <= i <= |items|
          invariant data == Obj(fields["artifacts" := Arr(CleanedPrefix(items, i))])
          invariant forall j | 0 <= j < i :: ElementCleanable(items[j])
        {
          var artifact := items[i];
          if !ElementCleanable(artifact) {
            return false;
          }
          if artifact.Obj? {
            var f := artifact.fields;
            if RichText in f {
              f := f[RichText := Str(CleanHtml(TextOf(f[RichText])))];
            }
            if LocalRichText in f {
              f := f[LocalRichText := Str(CleanHtml(TextOf(f[LocalRichText])))];
            }
            assert Obj(f) == CleanedElement(artifact);
            data := Obj(data.fields["artifacts" := Arr(data.fields["artifacts"].items[i := Obj(f)])]);
            assert data.fields == fields["artifacts" := Arr(CleanedPrefix(items, i)[i := Obj(f)])];
            assert CleanedPrefix(items, i)[i := Obj(f)] == CleanedPrefix(items, i + 1);
          } else {
            assert CleanedPrefix(items, i) == CleanedPrefix(items, i + 1);
          }
          i := i + 1;
        }
        ok := true;
      } else {
        if !FieldsCleanable(fields) {
          return false;
        }
        if RichText in fields {
          fields := fields[RichText := Str(CleanHtml(TextOf(fields[RichText])))];
        }
        if LocalRichText in fields {
          fields := fields[LocalRichText := Str(CleanHtml(TextOf(fields[LocalRichText])))];
        }
        data := Obj(fields);
        ok := true;
      }
    }
  }

  /** Cleaning the rich text of a dict keeps its keys, changes no other value, and
      leaves each present rich-text field a cleaned string: without newlines, without
      whitespace at either end, and empty where the field was falsy. */
  lemma RichTextCleaned(d: Dict)
    ensures CleanRichText(d).Keys == d.Keys
    ensures forall k | k in d && k != RichText && k != LocalRichText :: CleanRichText(d)[k] == d[k]
    ensures forall k | k in d && (k == RichText || k == LocalRichText) ::
      && CleanRichText(d)[k] == Str(CleanHtml(TextOf(d[k])))
      && '\n' !in CleanHtml(TextOf(d[k]))
      && Trimmed(CleanHtml(TextOf(d[k])))
      && (!Truthy(d[k]) ==> CleanHtml(TextOf(d[k])) == "")
  {
    forall k | k in d && (k == RichText || k == LocalRichText)
      ensures '\n' !in CleanHtml(TextOf(d[k])) && Trimmed(CleanHtml(TextOf(d[k])))
      ensures !Truthy(d[k]) ==> CleanHtml(TextOf(d[k])) == ""
    {
      CleanHtmlShape(TextOf(d[k]));
    }
  }

  /** With a list of artifacts, only the artifacts change, and of each artifact only
      its two rich-text fields: the top-level fields, the order and number of the
      artifacts, the elements that are not dicts, and every other key of an artifact
      (its children included) stay as they were. */
  lemma ListDocumentCleaned(doc: Json)
    requires Cleanable(doc) && HasArtifactList(doc)
    ensures CleanedDocument(doc).fields.Keys == doc.fields.Keys
    ensures forall k | k in doc.fields && k != "artifacts" :: CleanedDocument(doc).fields[k] == doc.fields[k]
    ensures CleanedDocument(doc).fields["artifacts"].Arr?
    ensures |CleanedDocument(doc).fields["artifacts"].items| == |doc.fields["artifacts"].items|
    ensures forall i | 0 <= i < |doc.fields["artifacts"].items| ::
      var v, w := doc.fields["artifacts"].items[i], CleanedDocument(doc).fields["artifacts"].items[i];
      && (!v.Obj? ==> w == v)
      && (v.Obj? ==> w == Obj(CleanRichText(v.fields)))
  {
  }

  /** Without a list of artifacts, only the two top-level rich-text fields change; an
      `artifacts` that is not a list is left as it is. */
  lemma PlainDocumentCleaned(doc: Json)
    requires Cleanable(doc) && !HasArtifactList(doc)
    ensures CleanedDocument(doc) == Obj(CleanRichText(doc.fields))
    ensures "artifacts" in doc.fields ==> CleanedDocument(doc).fields["artifacts"] == doc.fields["artifacts"]
  {
  }

  /** A document that already has no rich text in the places the pass looks at comes
      back unchanged. */
  lemma NothingToClean(doc: Json)
    requires Cleanable(doc)
    requires HasArtifactList(doc) ==> forall i | 0 <= i < |doc.fields["artifacts"].items| ::
      doc.fields["artifacts"].items[i].Obj? ==>
        RichText !in doc.fields["artifacts"].items[i].fields && LocalRichText !in doc.fields["artifacts"].items[i].fields
    requires !HasArtifactList(doc) ==> RichText !in doc.fields && LocalRichText !in doc.fields
    ensures CleanedDocument(doc) == doc
  {
    if HasArtifactList(doc) {
      var items := doc.fields["artifacts"].items;
      assert CleanedPrefix(items, |items|) == items;
      assert doc.fields["artifacts" := Arr(items)] == doc.fields;
    }
  }
}
