/** `clean_html` of tx.py: the older rich-text cleaner, applied in place to the
    artifacts of an exported module. */
module LegacyCleaner {
  import opened Text
  import opened Rewrite
  import opened Optional
  import opened HtmlPatterns
  import opened CleanerStages
  import PrimaryCleaner

  /** Lines 21 and 24: the `ns0:primarytext` wrapper tags removed, then `<html:` and
      `</html:` both replaced by `<`. */
  function DropNamespacePrefixes(html: string): string
  {
    Sub(NamespacePrefix, Sub(PrimaryTextTag, html))
  }

  /** Lines 34-35: newlines deleted, then each run of two or more whitespace
      characters replaced by one space. */
  function Squash(s: string): string
  {
    Sub(SpaceRunToSpace, Sub(NewlinesDeleted, s))
  }

  /** Lines 21-50: every `re.sub` of the cleaner, in order. */
  function Rewritten(html: string): string
  {
    Sub(StrayClose, TidyBlocks(Squash(DropAttributesAndImages(DropNamespacePrefixes(html)))))
  }

  /** `clean_html(html_text)` */
  function CleanHtml(html: string): string
  {
    if html == "" then "" else Strip(Rewritten(html))
  }

  /** Newlines are deleted: none is left after lines 34-35. */
  lemma SquashHasNoNewline(s: string)
    ensures '\n' !in Squash(s)
  {
    SubDropsChar(NewlinesDeleted, s, '\n');
    SubDropsChar(SpaceRunToSpace, Sub(NewlinesDeleted, s), '\n');
  }

  /** Empty input gives empty output; any output has no newline and no whitespace at
      either end. */
  lemma CleanHtmlShape(html: string)
    ensures html == "" ==> CleanHtml(html) == ""
    ensures '\n' !in CleanHtml(html)
    ensures Trimmed(CleanHtml(html))
  {
    if html != "" {
      var squashed := Squash(DropAttributesAndImages(DropNamespacePrefixes(html)));
      SquashHasNoNewline(DropAttributesAndImages(DropNamespacePrefixes(html)));
      TidyBlocksKeepsNoNewline(squashed);
      SubDropsChar(StrayClose, TidyBlocks(squashed), '\n');
      StripKeepsCharOut(Rewritten(html), '\n');
    }
  }

  /** Text without newlines or whitespace runs passes lines 34-35 unchanged. */
  lemma SquashUntouched(s: string)
    requires '\n' !in s && !HasSpaceRun(s)
    ensures Squash(s) == s
  {
    SubUntouchedOpens(NewlinesDeleted, s, '\n');
    SpaceRunsUntouched(s);
  }

  /** No wrapper is added: plain text comes back exactly as it went in. */
  lemma CleanHtmlKeepsPlainText(s: string)
    requires PlainText(s)
    ensures CleanHtml(s) == s
  {
    if s != [] {
      SubUntouchedOpens(PrimaryTextTag, s, '<');
      SubUntouchedOpens(NamespacePrefix, s, '<');
      DropAttributesAndImagesUntouched(s);
      SquashUntouched(s);
      TidyBlocksUntouched(s);
      SubUntouchedOpens(StrayClose, s, '<');
      StripSlice(s);
    }
  }

  /** The two cleaners differ on plain text by exactly the outer `<div>` wrapper. */
  lemma OnlyPrimaryWraps(s: string)
    requires PlainText(s) && s != []
    ensures PrimaryCleaner.CleanPrimaryHtml(s) == "<div>" + CleanHtml(s) + "</div>"
    ensures PrimaryCleaner.CleanPrimaryHtml(s) != CleanHtml(s)
  {
    CleanHtmlKeepsPlainText(s);
    PrimaryCleaner.PrimaryWrapsPlainText(s);
  }

  /** Line 34 deletes a newline between two lines. */
  lemma NewlineDeleted(x: string, y: string)
    requires '\n' !in x && '\n' !in y
    ensures Sub(NewlinesDeleted, x + "\n" + y) == x + y
  {
    var z := "\n" + y;
    assert x + "\n" + y == x + z;
    forall k | 0 <= k < |x| ensures NewlinesDeleted((x + z)[k..]).None? {
      assert (x + z)[k..][0] == x[k];
    }
    SubSkipsPrefix(NewlinesDeleted, x, z);
    LeadingNewlineDeleted(y);
  }

  /** A newline at the start of a line-free text is dropped. */
  lemma LeadingNewlineDeleted(y: string)
    requires '\n' !in y
    ensures Sub(NewlinesDeleted, "\n" + y) == y
  {
    var z := "\n" + y;
    assert y == [] || z[1] != '\n';
    assert CharRun(z, '\n') == 1;
    assert NewlinesDeleted(z) == Some(Match(1, ""));
    SubAtMatch(NewlinesDeleted, z);
    assert z[1..] == y;
    SubUntouchedOpens(NewlinesDeleted, y, '\n');
  }

  /** The two cleaners part ways on a newline: the older one joins the lines, the
      newer one separates them by a space. */
  lemma NewlineHandlingDiffers(x: string, y: string)
    requires '\n' !in x && '\n' !in y
    ensures Sub(NewlinesDeleted, x + "\n" + y) == x + y
    ensures Sub(NewlinesToSpace, x + "\n" + y) == x + " " + y
  {
    NewlineDeleted(x, y);
    PrimaryCleaner.NewlineBecomesSpace(x, y);
  }

  /** Line 24 turns the start of a namespaced closing tag into the start of an opening
      tag: `</html:REST` becomes `<REST`. */
  lemma ClosingTagOpens(rest: string)
    requires '<' !in rest
    ensures Sub(NamespacePrefix, "</html:" + rest) == "<" + rest
  {
    var t := "</html:" + rest;
    assert "</html:" <= t;
    SubAtMatch(NamespacePrefix, t);
    assert t[7..] == rest;
    SubUntouchedOpens(NamespacePrefix, rest, '<');
  }
}
