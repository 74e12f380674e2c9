/** `clean_primary_html` of Transformation_Script.py: the rich-text cleaner whose
    result becomes an artifact's description. */
module PrimaryCleaner {
  import opened Optional
  import opened Text
  import opened Rewrite
  import opened HtmlPatterns
  import opened CleanerStages

  /** Lines 48-49: when `re.search(r"</p>\s*</div>$")` finds nothing, the same
      pattern is substituted, so it finds nothing either. The step never changes
      the string. */
  function EnsureClosedParagraph(s: string): (r: string)
    ensures r == s
  {
    if !EndsWithClosedParagraph(s) then TightenClosedParagraph(s) else s
  }

  /** Line 46-47: wrap in `<div>...</div>` unless the text already starts with `<div>`. */
  function WrapInDiv(s: string): (r: string)
    ensures "<div>" <= r
    ensures "<div>" <= s ==> r == s
  {
    if "<div>" <= s then s else "<div>" + s + "</div>"
  }

  /** Steps 1 and 2: the `ns0:primarytext` wrapper tags removed, then the `html:`
      prefix dropped from opening tags and, separately, from closing tags. */
  function DropNamespaces(html: string): string
  {
    Sub(NamespacedClose, Sub(NamespacedOpen, Sub(PrimaryTextTag, html)))
  }

  /** Step 5: each run of newlines becomes one space, then each run of two or more
      whitespace characters becomes one space. */
  function OneLine(s: string): string
  {
    Sub(SpaceRunToSpace, Sub(NewlinesToSpace, s))
  }

  /** Steps 1 to 8 of the cleaner, each a `re.sub` over the whole text, in order. */
  function NormalizeMarkup(html: string): string
  {
    TidyBlocks(OneLine(DropAttributesAndImages(DropNamespaces(html))))
  }

  /** `clean_primary_html(html_text)` */
  function CleanPrimaryHtml(html: string): string
  {
    if html == "" then "" else Strip(EnsureClosedParagraph(WrapInDiv(NormalizeMarkup(html))))
  }

  /** Newlines become spaces: none is left after step 5. */
  lemma OneLineHasNoNewline(s: string)
    ensures '\n' !in OneLine(s)
  {
    SubDropsChar(NewlinesToSpace, s, '\n');
    SubDropsChar(SpaceRunToSpace, Sub(NewlinesToSpace, s), '\n');
  }

  /** The cleaner turns empty input into empty output; any other input comes out
      starting with `<div>` and without a newline. */
  lemma CleanPrimaryHtmlShape(html: string)
    ensures html == "" ==> CleanPrimaryHtml(html) == ""
    ensures html != "" ==> "<div>" <= CleanPrimaryHtml(html)
    ensures '\n' !in CleanPrimaryHtml(html)
  {
    if html != "" {
      var wrapped := WrapInDiv(NormalizeMarkup(html));
      var oneLine := OneLine(DropAttributesAndImages(DropNamespaces(html)));
      OneLineHasNoNewline(DropAttributesAndImages(DropNamespaces(html)));
      TidyBlocksKeepsNoNewline(oneLine);
      assert '\n' !in wrapped;
      StripKeepsPrefix(wrapped, "<div>");
      StripKeepsCharOut(wrapped, '\n');
    }
  }

  /** Text without tags passes the namespace steps unchanged. */
  lemma DropNamespacesUntouched(s: string)
    requires '<' !in s
    ensures DropNamespaces(s) == s
  {
    SubUntouchedOpens(PrimaryTextTag, s, '<');
    SubUntouchedOpens(NamespacedOpen, s, '<');
    SubUntouchedOpens(NamespacedClose, s, '<');
  }

  /** Text without newlines or whitespace runs passes step 5 unchanged. */
  lemma OneLineUntouched(s: string)
    requires '\n' !in s && !HasSpaceRun(s)
    ensures OneLine(s) == s
  {
    SubUntouchedOpens(NewlinesToSpace, s, '\n');
    SpaceRunsUntouched(s);
  }

  /** Text that does not start with `<div>` comes out of step 9 and the final strip
      wrapped, and nothing else. */
  lemma FinishWraps(s: string)
    requires !("<div>" <= s)
    ensures Strip(EnsureClosedParagraph(WrapInDiv(s))) == "<div>" + s + "</div>"
  {
    var w := "<div>" + s + "</div>";
    assert WrapInDiv(s) == w;
    assert EnsureClosedParagraph(w) == w;
    assert Trimmed(w) by {
      assert w[0] == '<' && w[|w| - 1] == '>';
    }
    StripSlice(w);
  }

  /** Plain text only gains the outer wrapper. */
  lemma PrimaryWrapsPlainText(s: string)
    requires PlainText(s) && s != []
    ensures CleanPrimaryHtml(s) == "<div>" + s + "</div>"
  {
    DropNamespacesUntouched(s);
    DropAttributesAndImagesUntouched(s);
    OneLineUntouched(s);
    TidyBlocksUntouched(s);
    assert NormalizeMarkup(s) == s;
    assert s[0] != '<';
    FinishWraps(s);
  }

  /** Step 5 turns a newline between two lines into a space. */
  lemma NewlineBecomesSpace(x: string, y: string)
    requires '\n' !in x && '\n' !in y
    ensures Sub(NewlinesToSpace, x + "\n" + y) == x + " " + y
  {
    var z := "\n" + y;
    assert x + "\n" + y == x + z;
    forall k | 0 <= k < |x| ensures NewlinesToSpace((x + z)[k..]).None? {
      assert (x + z)[k..][0] == x[k];
    }
    SubSkipsPrefix(NewlinesToSpace, x, z);
    assert y == [] || z[1] != '\n';
    assert CharRun(z, '\n') == 1;
    SubAtMatch(NewlinesToSpace, z);
    assert z[1..] == y;
    SubUntouchedOpens(NewlinesToSpace, y, '\n');
  }

  /** `</html:NAME>`: a namespaced closing tag. */
  function NamespacedCloseTag(name: string): string
  {
    "</html:" + name + ">"
  }

  /** The wrapper-tag step does not touch a namespaced closing tag. */
  lemma PrimaryTextTagSkipsClosingTag(name: string)
    requires forall i | 0 <= i < |name| :: IsAsciiAlnum(name[i])
    ensures Sub(PrimaryTextTag, NamespacedCloseTag(name)) == NamespacedCloseTag(name)
  {
    var t := NamespacedCloseTag(name);
    forall k | 0 <= k < |t| ensures PrimaryTextTag(t[k..]).None? {
      PrimaryTextTagSkipsAt(name, k);
    }
    SubIdentity(PrimaryTextTag, t);
  }

  /** The wrapper rule matches at no position of a namespaced closing tag. */
  lemma PrimaryTextTagSkipsAt(name: string, k: nat)
    requires forall i | 0 <= i < |name| :: IsAsciiAlnum(name[i])
    requires k < |NamespacedCloseTag(name)|
    ensures PrimaryTextTag(NamespacedCloseTag(name)[k..]).None?
  {
    var t := NamespacedCloseTag(name);
    var u := t[k..];
    assert u[0] == t[k];
    if k == 0 {
      assert u[2] == 'h' && "</ns0:primarytext"[2] == 'n';
      assert !("</ns0:primarytext" <= u);
      assert u[1] == '/' && "<ns0:primarytext"[1] == 'n';
      assert !("<ns0:primarytext" <= u);
    } else {
      assert t[k] != '<';
      assert !("</ns0:primarytext" <= u);
      assert !("<ns0:primarytext" <= u);
    }
  }

  /** The opening-tag rule does not touch a namespaced closing tag. */
  lemma NamespacedOpenSkipsClosingTag(name: string)
    requires forall i | 0 <= i < |name| :: IsAsciiAlnum(name[i])
    ensures Sub(NamespacedOpen, NamespacedCloseTag(name)) == NamespacedCloseTag(name)
  {
    var t := NamespacedCloseTag(name);
    forall k | 0 <= k < |t| ensures NamespacedOpen(t[k..]).None? {
      NamespacedOpenSkipsAt(name, k);
    }
    SubIdentity(NamespacedOpen, t);
  }

  /** The opening-tag rule matches at no position of a namespaced closing tag. */
  lemma NamespacedOpenSkipsAt(name: string, k: nat)
    requires forall i | 0 <= i < |name| :: IsAsciiAlnum(name[i])
    requires k < |NamespacedCloseTag(name)|
    ensures NamespacedOpen(NamespacedCloseTag(name)[k..]).None?
  {
    var t := NamespacedCloseTag(name);
    var u := t[k..];
    assert u[0] == t[k];
    if k == 0 {
      assert u[1] == '/' && "<html:"[1] == 'h';
    } else {
      assert t[k] != '<';
    }
    assert !("<html:" <= u);
  }

  /** The closing-tag rule matches the whole of a namespaced closing tag. */
  lemma NamespacedCloseMatchesTag(name: string)
    requires name != [] && forall i | 0 <= i < |name| :: IsAsciiAlnum(name[i])
    ensures NamespacedClose(NamespacedCloseTag(name)) == Some(Match(|NamespacedCloseTag(name)|, "</" + name + ">"))
  {
    var t := NamespacedCloseTag(name);
    assert "</html:" <= t;
    assert t[7..] == name + ">";
    assert AlnumRun(t[7..]) == |name| by {
      assert (name + ">")[|name|] == '>';
    }
    assert t[7..7 + |name|] == name;
  }

  /** Step 2 keeps a namespaced closing tag a closing tag: `</html:NAME>` becomes
      `</NAME>`. */
  lemma ClosingTagStaysClosing(name: string)
    requires name != [] && forall i | 0 <= i < |name| :: IsAsciiAlnum(name[i])
    ensures DropNamespaces(NamespacedCloseTag(name)) == "</" + name + ">"
  {
    var t := NamespacedCloseTag(name);
    PrimaryTextTagSkipsClosingTag(name);
    NamespacedOpenSkipsClosingTag(name);
    NamespacedCloseMatchesTag(name);
    SubAtMatch(NamespacedClose, t);
    assert t[|t|..] == [];
  }
}
