/** `re.sub(pattern, repl, s)` for patterns that never match the empty string: the
    string is scanned from the left; where the pattern matches, the match is replaced
    and scanning resumes after it; elsewhere one character is copied and scanning
    moves on by one. A pattern is given by its matcher: what it matches at the very
    start of a string, if anything. */
module Rewrite {
  import opened Optional

  /** A match at the start of a string: how many characters it covers, and the text
      that replaces them. */
  datatype Match = Match(len: nat, text: string)

  type Matcher = string -> Option<Match>

  /** Every match covers at least one character and stays inside the string. */
  ghost predicate Consumes(f: Matcher)
  {
    forall t :: f(t).Some? ==> 0 < f(t).value.len <= |t|
  }

  /** No replacement text contains `c`. */
  ghost predicate NeverWrites(f: Matcher, c: char)
  {
    forall t :: f(t).Some? ==> c !in f(t).value.text
  }

  /** Every match starts with `c`. */
  ghost predicate Opens(f: Matcher, c: char)
  {
    forall t :: f(t).Some? ==> t != [] && t[0] == c
  }

  /** Every match covers an occurrence of `c`. */
  ghost predicate Mentions(f: Matcher, c: char)
  {
    forall t :: f(t).Some? ==> f(t).value.len <= |t| && c in t[..f(t).value.len]
  }

  function Sub(f: Matcher, s: string): string
    requires Consumes(f)
    decreases |s|
  {
    if s == [] then []
    else
      match f(s)
      case Some(m) => m.text + Sub(f, s[m.len..])
      case None => [s[0]] + Sub(f, s[1..])
  }

  /** Where the pattern matches at no position, `re.sub` returns its input. */
  lemma {:induction false} SubIdentity(f: Matcher, s: string)
    requires Consumes(f)
    requires forall k | 0 <= k < |s| :: f(s[k..]).None?
    ensures Sub(f, s) == s
  {
    if s != [] {
      assert s[0..] == s;
      forall k | 0 <= k < |s| - 1 ensures f(s[1..][k..]).None? {
        assert s[1..][k..] == s[k + 1..];
      }
      SubIdentity(f, s[1..]);
    }
  }

  /** A pattern whose every match covers a `c` leaves a string without `c` alone. */
  lemma SubUntouched(f: Matcher, s: string, c: char)
    requires Consumes(f) && Mentions(f, c)
    requires c !in s
    ensures Sub(f, s) == s
  {
    forall k | 0 <= k < |s| ensures f(s[k..]).None? {
      var t := s[k..];
      forall n | 0 <= n <= |t| ensures c !in t[..n] {
        assert forall i | 0 <= i < n :: t[..n][i] == s[k + i];
      }
    }
    SubIdentity(f, s);
  }

  /** A pattern whose every match starts with `c` leaves a string without `c` alone. */
  lemma SubUntouchedOpens(f: Matcher, s: string, c: char)
    requires Consumes(f) && Opens(f, c)
    requires c !in s
    ensures Sub(f, s) == s
  {
    forall k | 0 <= k < |s| ensures f(s[k..]).None? {
      assert s[k..][0] == s[k];
    }
    SubIdentity(f, s);
  }

  /** `c` is absent from the result when the replacements never write it and the
      pattern matches at every position of the input that holds a `c`. */
  lemma {:induction false} SubDropsChar(f: Matcher, s: string, c: char)
    requires Consumes(f) && NeverWrites(f, c)
    requires forall k | 0 <= k < |s| && s[k] == c :: f(s[k..]).Some?
    ensures c !in Sub(f, s)
  {
    if s != [] {
      assert s[0..] == s;
      match f(s)
      case Some(m) =>
        forall k | 0 <= k < |s| - m.len && s[m.len..][k] == c ensures f(s[m.len..][k..]).Some? {
          assert s[m.len..][k..] == s[m.len + k..];
        }
        SubDropsChar(f, s[m.len..], c);
      case None =>
        forall k | 0 <= k < |s| - 1 && s[1..][k] == c ensures f(s[1..][k..]).Some? {
          assert s[1..][k..] == s[k + 1..];
        }
        SubDropsChar(f, s[1..], c);
    }
  }

  /** Scanning passes over a prefix at none of whose positions the pattern matches. */
  lemma {:induction false} SubSkipsPrefix(f: Matcher, x: string, z: string)
    requires Consumes(f)
    requires forall k | 0 <= k < |x| :: f((x + z)[k..]).None?
    ensures Sub(f, x + z) == x + Sub(f, z)
  {
    if x != [] {
      assert (x + z)[0..] == x + z;
      assert (x + z)[1..] == x[1..] + z;
      forall k | 0 <= k < |x| - 1 ensures f((x[1..] + z)[k..]).None? {
        assert (x[1..] + z)[k..] == (x + z)[k + 1..];
      }
      SubSkipsPrefix(f, x[1..], z);
      assert f(x + z).None?;
      assert [x[0]] + (x[1..] + Sub(f, z)) == x + Sub(f, z);
    } else {
      assert x + z == z;
    }
  }

  /** A match at the very start is replaced and scanning resumes after it. */
  lemma SubAtMatch(f: Matcher, s: string)
    requires Consumes(f) && s != [] && f(s).Some?
    ensures Sub(f, s) == f(s).value.text + Sub(f, s[f(s).value.len..])
  {
  }
}
