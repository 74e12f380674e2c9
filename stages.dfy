/** The stretches of the rewrite chain that `clean_primary_html`
    (Transformation_Script.py) and `clean_html` (tx.py) have in common, each
    applied in the order both functions apply them. */
module CleanerStages {
  import opened Text
  import opened Rewrite
  import opened HtmlPatterns

  /** Text that neither cleaner has anything to rewrite in: no tag, no quote, no
      newline, no two whitespace characters side by side, no whitespace at either end. */
  predicate PlainText(s: string)
  {
    '<' !in s && '"' !in s && '\n' !in s && !HasSpaceRun(s) && Trimmed(s)
  }

  /** Steps 3 and 4: `dir` and `id` attributes, then `<img>` tags, removed. */
  function DropAttributesAndImages(s: string): string
  {
    Sub(ImgTag, Sub(IdAttribute, Sub(DirAttribute, s)))
  }

  /** Steps 6 to 8: empty `<p>` and `<div>` elements removed, close-and-reopen chains
      collapsed, doubled inline tags undoubled. */
  function TidyBlocks(s: string): string
  {
    var noEmptyP := Sub(EmptyParagraph, s);
    var noEmptyDiv := Sub(EmptyDiv, noEmptyP);
    var pJoined := Sub(ParagraphChain, noEmptyDiv);
    var divJoined := Sub(DivChain, pJoined);
    var openOnce := Sub(DoubledOpen, divJoined);
    Sub(DoubledClose, openOnce)
  }

  /** Text without markup, quotes or newlines passes the attribute and image step
      unchanged. */
  lemma DropAttributesAndImagesUntouched(s: string)
    requires '<' !in s && '"' !in s
    ensures DropAttributesAndImages(s) == s
  {
    SubUntouched(DirAttribute, s, '"');
    SubUntouched(IdAttribute, s, '"');
    SubUntouchedOpens(ImgTag, s, '<');
  }

  /** Block tidying only touches tags, so text without `<` passes unchanged. */
  lemma TidyBlocksUntouched(s: string)
    requires '<' !in s
    ensures TidyBlocks(s) == s
  {
    SubUntouchedOpens(EmptyParagraph, s, '<');
    SubUntouchedOpens(EmptyDiv, s, '<');
    SubUntouchedOpens(ParagraphChain, s, '<');
    SubUntouchedOpens(DivChain, s, '<');
    SubUntouchedOpens(DoubledOpen, s, '<');
    SubUntouchedOpens(DoubledClose, s, '<');
  }

  /** Block tidying never writes a newline. */
  lemma TidyBlocksKeepsNoNewline(s: string)
    requires '\n' !in s
    ensures '\n' !in TidyBlocks(s)
  {
    var noEmptyP := Sub(EmptyParagraph, s);
    SubDropsChar(EmptyParagraph, s, '\n');
    var noEmptyDiv := Sub(EmptyDiv, noEmptyP);
    SubDropsChar(EmptyDiv, noEmptyP, '\n');
    var pJoined := Sub(ParagraphChain, noEmptyDiv);
    SubDropsChar(ParagraphChain, noEmptyDiv, '\n');
    var divJoined := Sub(DivChain, pJoined);
    SubDropsChar(DivChain, pJoined, '\n');
    var openOnce := Sub(DoubledOpen, divJoined);
    SubDropsChar(DoubledOpen, divJoined, '\n');
    SubDropsChar(DoubledClose, openOnce, '\n');
  }

  /** A text without two whitespace characters side by side passes `\s{2,}` unchanged. */
  lemma SpaceRunsUntouched(s: string)
    requires !HasSpaceRun(s)
    ensures Sub(SpaceRunToSpace, s) == s
  {
    forall k | 0 <= k < |s| ensures SpaceRunToSpace(s[k..]).None? {
      assert s[k..][0] == s[k];
      if k + 1 < |s| {
        assert s[k..][1] == s[k + 1];
      }
    }
    SubIdentity(SpaceRunToSpace, s);
  }
}
