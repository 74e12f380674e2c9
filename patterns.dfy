/** The regular expressions of the two HTML cleaners, one matcher each. A matcher
    says what its pattern matches at the very start of a string (Python's `re`
    finds the leftmost match; `Rewrite.Sub` moves the start along) and what
    replaces it. Each is written for its one pattern: the greedy quantifiers and
    alternatives of these patterns leave at most one way to match at a position. */
module HtmlPatterns {
  import opened Optional
  import opened Text
  import opened Rewrite

  /** `c` equals the lower-case pattern character `p` under ASCII case folding. */
  predicate SameIgnoringCase(c: char, p: char)
  {
    c == p || ('a' <= p <= 'z' && c as int == p as int - 32)
  }

  /** `t` starts with the lower-case literal `p` under `re.IGNORECASE` (ASCII letters). */
  predicate PrefixIgnoringCase(p: string, t: string)
  {
    |p| <= |t| && forall i | 0 <= i < |p| :: SameIgnoringCase(t[i], p[i])
  }

  /** `</?ns0:primarytext[^>]*>` replaced by nothing: the opening or closing tag of
      the wrapper element, attributes included, up to the first `>`. */
  function PrimaryTextTag(t: string): (r: Option<Match>)
    ensures r.Some? ==> 0 < r.value.len <= |t| && r.value.text == "" && t[0] == '<'
  {
    var open := if "</ns0:primarytext" <= t then 17 else if "<ns0:primarytext" <= t then 16 else 0;
    if open == 0 then None
    else
      var close := open + CharIndex(t[open..], '>');
      if close < |t| then Some(Match(close + 1, "")) else None
  }

  /** `<html:([a-zA-Z0-9]+)` replaced by `<\1`: the namespace prefix of an opening tag. */
  function NamespacedOpen(t: string): (r: Option<Match>)
    ensures r.Some? ==> 0 < r.value.len <= |t| && '\n' !in r.value.text && t[0] == '<'
  {
    if "<html:" <= t then
      var n := AlnumRun(t[6..]);
      if n > 0 then
        assert forall k | 0 <= k < n :: t[6..6 + n][k] == t[6..][k];
        Some(Match(6 + n, "<" + t[6..6 + n]))
      else None
    else None
  }

  /** `</html:([a-zA-Z0-9]+)>` replaced by `</\1>`: the namespace prefix of a closing tag. */
  function NamespacedClose(t: string): (r: Option<Match>)
    ensures r.Some? ==> 0 < r.value.len <= |t| && '\n' !in r.value.text && t[0] == '<'
  {
    if "</html:" <= t then
      var n := AlnumRun(t[7..]);
      if n > 0 && 7 + n < |t| && t[7 + n] == '>' then
        assert forall k | 0 <= k < n :: t[7..7 + n][k] == t[7..][k];
        Some(Match(8 + n, "</" + t[7..7 + n] + ">"))
      else None
    else None
  }

  /** `</?html:` replaced by `<`: the namespace prefix of any tag, the slash of a
      closing tag included. */
  function NamespacePrefix(t: string): (r: Option<Match>)
    ensures r.Some? ==> 0 < r.value.len <= |t| && r.value.text == "<" && t[0] == '<'
  {
    if "</html:" <= t then Some(Match(7, "<"))
    else if "<html:" <= t then Some(Match(6, "<"))
    else None
  }

  /** `\s*NAME="[^"]*"` replaced by nothing: an attribute with the whitespace before it. */
  function QuotedAttribute(name: string, t: string): (r: Option<Match>)
    ensures r.Some? ==> 0 < r.value.len <= |t| && r.value.text == "" && '"' in t[..r.value.len]
  {
    var w := SpaceRun(t);
    var head := name + "=\"";
    if head <= t[w..] then
      var q := w + |head| + CharIndex(t[w + |head|..], '"');
      if q < |t| then
        assert t[..q + 1][q] == '"';
        Some(Match(q + 1, ""))
      else None
    else None
  }

  /** `\s*dir="[^"]*"` */
  function DirAttribute(t: string): Option<Match>
  {
    QuotedAttribute("dir", t)
  }

  /** `\s*id="[^"]*"` */
  function IdAttribute(t: string): Option<Match>
  {
    QuotedAttribute("id", t)
  }

  /** `<img[^>]*>` replaced by nothing. */
  function ImgTag(t: string): (r: Option<Match>)
    ensures r.Some? ==> 0 < r.value.len <= |t| && r.value.text == "" && t[0] == '<'
  {
    if "<img" <= t then
      var close := 4 + CharIndex(t[4..], '>');
      if close < |t| then Some(Match(close + 1, "")) else None
    else None
  }

  /** `\n+` replaced by `repl`: a run of newlines, matched wherever a newline stands. */
  function NewlineRun(t: string, repl: string): (r: Option<Match>)
    requires '\n' !in repl
    ensures r.Some? ==> 0 < r.value.len <= |t| && r.value.text == repl && t[0] == '\n'
    ensures t != [] && t[0] == '\n' ==> r.Some?
  {
    var n := CharRun(t, '\n');
    if n > 0 then Some(Match(n, repl)) else None
  }

  /** `re.sub(r"\n+", " ", ...)` */
  function NewlinesToSpace(t: string): Option<Match>
  {
    NewlineRun(t, " ")
  }

  /** `re.sub(r"\n+", "", ...)` */
  function NewlinesDeleted(t: string): Option<Match>
  {
    NewlineRun(t, "")
  }

  /** `\s{2,}` replaced by one space: a run of two or more whitespace characters.
      A lone whitespace character is not a match and is kept as it is. */
  function SpaceRunToSpace(t: string): (r: Option<Match>)
    ensures r.Some? ==> 2 <= r.value.len <= |t| && r.value.text == " " && IsSpace(t[0]) && IsSpace(t[1])
  {
    var n := SpaceRun(t);
    if n >= 2 then Some(Match(n, " ")) else None
  }

  /** `<NAME>\s*(?:&nbsp;)?\s*</NAME>` under `re.IGNORECASE`, replaced by nothing:
      an element holding only whitespace and at most one non-breaking-space entity. */
  function EmptyBlock(name: string, t: string): (r: Option<Match>)
    ensures r.Some? ==> 0 < r.value.len <= |t| && r.value.text == "" && t[0] == '<'
  {
    var open := "<" + name + ">";
    if PrefixIgnoringCase(open, t) then
      assert SameIgnoringCase(t[0], open[0]);
      var i := |open| + SpaceRun(t[|open|..]);
      var j := if PrefixIgnoringCase("&nbsp;", t[i..]) then i + 6 else i;
      var k := j + SpaceRun(t[j..]);
      var close := "</" + name + ">";
      if PrefixIgnoringCase(close, t[k..]) then Some(Match(k + |close|, "")) else None
    else None
  }

  /** `<p>\s*(?:&nbsp;)?\s*</p>`, ignoring case */
  function EmptyParagraph(t: string): Option<Match>
  {
    EmptyBlock("p", t)
  }

  /** `<div>\s*(?:&nbsp;)?\s*</div>`, ignoring case */
  function EmptyDiv(t: string): Option<Match>
  {
    EmptyBlock("div", t)
  }

  /** Length of one `</NAME>\s*<NAME>\s*` at the start of `t`, or 0. */
  function ChainLink(name: string, t: string): (n: nat)
    ensures n <= |t|
    ensures n > 0 ==> t[0] == '<'
  {
    var close := "</" + name + ">";
    var open := "<" + name + ">";
    if close <= t then
      var i := |close| + SpaceRun(t[|close|..]);
      if open <= t[i..] then
        var j := i + |open|;
        j + SpaceRun(t[j..])
      else 0
    else 0
  }

  /** Length of the greedy `(</NAME>\s*<NAME>\s*)+` at the start of `t`, or 0. */
  function ChainRun(name: string, t: string): (n: nat)
    ensures n <= |t|
    ensures n > 0 ==> t[0] == '<'
    decreases |t|
  {
    var n := ChainLink(name, t);
    if n == 0 then 0 else n + ChainRun(name, t[n..])
  }

  /** `(</NAME>\s*<NAME>\s*)+` replaced by `</NAME><NAME>`: consecutive
      close-and-reopen pairs of the same element, collapsed into one. */
  function BlockChain(name: string, t: string): (r: Option<Match>)
    requires '\n' !in name
    ensures r.Some? ==> 0 < r.value.len <= |t| && '\n' !in r.value.text && t[0] == '<'
  {
    var n := ChainRun(name, t);
    if n > 0 then Some(Match(n, "</" + name + "><" + name + ">")) else None
  }

  /** `(</p>\s*<p>\s*)+` */
  function ParagraphChain(t: string): Option<Match>
  {
    BlockChain("p", t)
  }

  /** `(</div>\s*<div>\s*)+` */
  function DivChain(t: string): Option<Match>
  {
    BlockChain("div", t)
  }

  /** The alternatives of `(i|u|b|sub|sup)`, in the order the pattern tries them. */
  const InlineTags: seq<string> := ["i", "u", "b", "sub", "sup"]

  /** The alternatives of `(i|u|b|sub|sup|del)`, in the order the pattern tries them. */
  const StrayTags: seq<string> := ["i", "u", "b", "sub", "sup", "del"]

  /** `LEAD(names)><LEAD\1>` replaced by `LEAD\1>`, where LEAD is `<` or `</`: the
      first alternative, in order, for which the doubled tag is there. */
  function FirstDoubled(names: seq<string>, lead: string, t: string): (r: Option<Match>)
    requires lead == "<" || lead == "</"
    requires forall n | n in names :: '\n' !in n
    ensures r.Some? ==> 0 < r.value.len <= |t| && '\n' !in r.value.text && t[0] == '<'
  {
    if names == [] then None
    else
      var tag := lead + names[0] + ">";
      if tag + tag <= t then
        assert t[0] == (tag + tag)[0];
        Some(Match(2 * |tag|, tag))
      else FirstDoubled(names[1..], lead, t)
  }

  /** `<(i|u|b|sub|sup)><\1>` replaced by `<\1>` */
  function DoubledOpen(t: string): Option<Match>
  {
    FirstDoubled(InlineTags, "<", t)
  }

  /** `</(i|u|b|sub|sup)></\1>` replaced by `</\1>` */
  function DoubledClose(t: string): Option<Match>
  {
    FirstDoubled(InlineTags, "</", t)
  }

  /** `</(names)>\s*</` replaced by `</`: a closing inline tag directly followed by
      another closing tag disappears. */
  function FirstStrayClose(names: seq<string>, t: string): (r: Option<Match>)
    ensures r.Some? ==> 0 < r.value.len <= |t| && r.value.text == "</" && t[0] == '<'
  {
    if names == [] then None
    else
      var tag := "</" + names[0] + ">";
      if tag <= t && "</" <= t[|tag| + SpaceRun(t[|tag|..])..] then
        assert t[0] == tag[0];
        Some(Match(|tag| + SpaceRun(t[|tag|..]) + 2, "</"))
      else FirstStrayClose(names[1..], t)
  }

  /** `</(i|u|b|sub|sup|del)>\s*</` */
  function StrayClose(t: string): Option<Match>
  {
    FirstStrayClose(StrayTags, t)
  }

  /** Where `$` can match once `</div>` has: the index at which a final `</div>`
      starts, the string ending there or just before a final newline. */
  function FinalDivAt(s: string): (r: Option<nat>)
    ensures r.Some? ==> r.value + 6 <= |s| && s[r.value..r.value + 6] == "</div>"
  {
    if EndsWith(s, "</div>") then Some(|s| - 6)
    else if EndsWith(s, "</div>\n") then
      assert s[|s| - 7..|s| - 1] == s[|s| - 7..][..6];
      Some(|s| - 7)
    else None
  }

  /** `re.search(r"</p>\s*</div>$", s)` finds a match: the final `</div>` is preceded
      by `</p>` and whitespace only. */
  predicate EndsWithClosedParagraph(s: string)
  {
    match FinalDivAt(s)
    case None => false
    case Some(e) => EndsWith(RStrip(s[..e]), "</p>")
  }

  /** `re.sub(r"(</p>)\s*</div>$", r"\1</div>", s)`: the whitespace between a final
      `</p>` and the final `</div>` is removed. */
  function TightenClosedParagraph(s: string): string
  {
    match FinalDivAt(s)
    case None => s
    case Some(e) => if EndsWith(RStrip(s[..e]), "</p>") then RStrip(s[..e]) + s[e..] else s
  }
}
