/** Attachment records derived from exported resource paths (Transformation_Script.py,
    lines 198-219): the part of a path below the export folder, and the file name
    without extension as it appears in the target system. */
module Attachments {
  import opened Optional
  import opened Text
  import opened JsonValues

  /** The export folder a saved resource path is taken relative to. */
  const Anchor: string := "modules_Test_Project_Template\\"

  /** `sep` occurs in `s` at index `i`. */
  predicate OccursAt(s: string, sep: string, i: int)
  {
    0 <= i && i + |sep| <= |s| && forall k | 0 <= k < |sep| :: s[i + k] == sep[k]
  }

  /** `sep` occurs somewhere in `s`. */
  predicate Occurs(s: string, sep: string)
  {
    exists i | 0 <= i <= |s| - |sep| :: OccursAt(s, sep, i)
  }

  /** The last index at most `i` where `sep` occurs in `s`, or -1 (`s.rfind(sep)` when
      `i` is the last index `sep` fits at). */
  function LastOccurrence(s: string, sep: string, i: int): (r: int)
    ensures r == -1 || 0 <= r <= i
    ensures r >= 0 ==> OccursAt(s, sep, r)
    decreases i + 1
  {
    if i < 0 then -1
    else if OccursAt(s, sep, i) then i
    else LastOccurrence(s, sep, i - 1)
  }

  /** `sep` does not occur after its last occurrence up to `i`. */
  lemma {:induction false} NotAfterLast(s: string, sep: string, i: int, k: int)
    requires LastOccurrence(s, sep, i) < k <= i
    ensures !OccursAt(s, sep, k)
    decreases i + 1
  {
    if k < i {
      NotAfterLast(s, sep, i - 1, k);
    }
  }

  /** `full_path.split("modules_Test_Project_Template\\")[-1]`. The folder name
      cannot overlap itself (`AnchorDoesNotOverlap`), so `split` cuts at every
      occurrence and its last piece is what follows the last occurrence. */
  function RelativePath(full: string): string
  {
    AfterLast(full, Anchor)
  }

  /** What follows the last occurrence of `sep` in `s`, or all of `s`. */
  function AfterLast(s: string, sep: string): string
  {
    var i := LastOccurrence(s, sep, |s| - |sep|);
    if i < 0 then s else s[i + |sep|..]
  }

  /** The relative path is the end of the full path: all of it when the folder does
      not occur, otherwise what follows the folder, which the relative path does not
      mention again. */
  lemma RelativePathFacts(full: string)
    ensures |RelativePath(full)| <= |full| && RelativePath(full) == full[|full| - |RelativePath(full)|..]
    ensures RelativePath(full) == full <==> !Occurs(full, Anchor)
    ensures RelativePath(full) != full ==> EndsWith(full[..|full| - |RelativePath(full)|], Anchor)
    ensures !Occurs(RelativePath(full), Anchor)
  {
    AfterLastFacts(full, Anchor);
  }

  /** `AfterLast` is the end of `s`: all of it when `sep` does not occur, otherwise
      what follows `sep`, and it does not hold `sep` again. */
  lemma AfterLastFacts(s: string, sep: string)
    requires sep != []
    ensures |AfterLast(s, sep)| <= |s| && AfterLast(s, sep) == s[|s| - |AfterLast(s, sep)|..]
    ensures AfterLast(s, sep) == s <==> !Occurs(s, sep)
    ensures AfterLast(s, sep) != s ==> EndsWith(s[..|s| - |AfterLast(s, sep)|], sep)
    ensures !Occurs(AfterLast(s, sep), sep)
  {
    var i := LastOccurrence(s, sep, |s| - |sep|);
    if i >= 0 {
      AfterFound(s, sep, i);
    } else {
      NoOccurrenceAtAll(s, sep);
      assert s[0..] == s;
    }
  }

  /** `AfterLast` when `sep` occurs: what follows its last occurrence. */
  lemma AfterFound(s: string, sep: string, i: int)
    requires sep != [] && i == LastOccurrence(s, sep, |s| - |sep|) && i >= 0
    ensures AfterLast(s, sep) == s[i + |sep|..] && |s| - |AfterLast(s, sep)| == i + |sep| > 0
    ensures Occurs(s, sep) && AfterLast(s, sep) != s
    ensures EndsWith(s[..i + |sep|], sep)
    ensures !Occurs(AfterLast(s, sep), sep)
  {
    AfterLastOccurrence(s, sep, i);
  }

  /** An occurrence with none after it, up to `n`, is the last one. */
  lemma {:induction false} LastOccurrenceIs(s: string, sep: string, i: int, n: int)
    requires OccursAt(s, sep, i) && i <= n
    requires forall k | i < k <= n :: !OccursAt(s, sep, k)
    ensures LastOccurrence(s, sep, n) == i
    decreases n
  {
    if i < n {
      LastOccurrenceIs(s, sep, i, n - 1);
    }
  }

  /** What follows the last occurrence of a non-empty `sep` is shorter than `s`,
      follows `sep`, and does not hold `sep` again. */
  lemma AfterLastOccurrence(s: string, sep: string, i: int)
    requires sep != [] && i == LastOccurrence(s, sep, |s| - |sep|) && i >= 0
    ensures Occurs(s, sep)
    ensures EndsWith(s[..i + |sep|], sep)
    ensures !Occurs(s[i + |sep|..], sep)
  {
    OccurrenceEnds(s, sep, i);
    NothingAfterLast(s, sep, i);
  }

  /** An occurrence ends the prefix up to its end. */
  lemma OccurrenceEnds(s: string, sep: string, i: int)
    requires OccursAt(s, sep, i)
    ensures EndsWith(s[..i + |sep|], sep)
  {
    var tail := s[..i + |sep|][i..];
    forall k | 0 <= k < |sep| ensures tail[k] == sep[k] {
      assert tail[k] == s[i + k];
    }
  }

  /** What follows the last occurrence does not hold `sep`. */
  lemma NothingAfterLast(s: string, sep: string, i: int)
    requires sep != [] && i == LastOccurrence(s, sep, |s| - |sep|) && i >= 0
    ensures !Occurs(s[i + |sep|..], sep)
  {
    var r := s[i + |sep|..];
    forall j | 0 <= j <= |r| - |sep| ensures !OccursAt(r, sep, j) {
      NotInSuffixAt(s, sep, i, j);
    }
  }

  /** `sep` is not `j` characters past the end of its last occurrence. */
  lemma NotInSuffixAt(s: string, sep: string, i: int, j: int)
    requires sep != [] && i == LastOccurrence(s, sep, |s| - |sep|) && i >= 0
    requires 0 <= j <= |s| - (i + |sep|) - |sep|
    ensures !OccursAt(s[i + |sep|..], sep, j)
  {
    NotAfterLast(s, sep, |s| - |sep|, i + |sep| + j);
    OccursInSuffix(s, sep, i + |sep|, j);
  }

  /** `sep` occurs `j` characters into the suffix from `a` exactly when it occurs
      `a + j` characters into `s`. */
  lemma OccursInSuffix(s: string, sep: string, a: nat, j: nat)
    requires a + j + |sep| <= |s|
    ensures OccursAt(s[a..], sep, j) <==> OccursAt(s, sep, a + j)
  {
    var t := s[a..];
    if OccursAt(s, sep, a + j) {
      forall k | 0 <= k < |sep| ensures t[j + k] == sep[k] {
        assert t[j + k] == s[a + j + k];
      }
    }
    if OccursAt(t, sep, j) {
      forall k | 0 <= k < |sep| ensures s[a + j + k] == sep[k] {
        assert t[j + k] == s[a + j + k];
      }
    }
  }

  /** Without a last occurrence, `sep` does not occur at all. */
  lemma NoOccurrenceAtAll(s: string, sep: string)
    requires LastOccurrence(s, sep, |s| - |sep|) < 0
    ensures !Occurs(s, sep)
  {
    forall j | 0 <= j <= |s| - |sep| ensures !OccursAt(s, sep, j) {
      NotAfterLast(s, sep, |s| - |sep|, j);
    }
  }

  /** Two occurrences of the folder name cannot overlap: the name holds no
      backslash but its last character. */
  lemma AnchorDoesNotOverlap(s: string, i: int, j: int)
    requires OccursAt(s, Anchor, i) && i < j < i + |Anchor|
    ensures !OccursAt(s, Anchor, j)
  {
    var p := i + |Anchor| - 1;
    assert s[i + (|Anchor| - 1)] == Anchor[|Anchor| - 1] == '\\';
    assert Anchor[p - j] != '\\';
  }

  /** After the folder name at `|root|`, the folder occurs nowhere in `root +
      Anchor + rest` when it does not occur in `rest`. */
  lemma NoLaterOccurrence(root: string, rest: string, k: int)
    requires !Occurs(rest, Anchor)
    requires |root| < k
    ensures !OccursAt(root + Anchor + rest, Anchor, k)
  {
    var full := root + Anchor + rest;
    var i := |root|;
    if k < i + |Anchor| {
      AnchorAfterRoot(root, rest);
      AnchorDoesNotOverlap(full, i, k);
    } else if OccursAt(full, Anchor, k) {
      var m := k - i - |Anchor|;
      forall t | 0 <= t < |Anchor| ensures rest[m + t] == Anchor[t] {
        assert full[k + t] == rest[m + t];
      }
      assert OccursAt(rest, Anchor, m);
    }
  }

  /** The folder name occurs where it was put. */
  lemma AnchorAfterRoot(root: string, rest: string)
    ensures OccursAt(root + Anchor + rest, Anchor, |root|)
  {
    var full := root + Anchor + rest;
    forall t | 0 <= t < |Anchor| ensures full[|root| + t] == Anchor[t] {
    }
  }

  /** A path below the export folder keeps exactly what follows it. */
  lemma RelativePathBelowAnchor(root: string, rest: string)
    requires !Occurs(rest, Anchor)
    ensures RelativePath(root + Anchor + rest) == rest
  {
    var full := root + Anchor + rest;
    var i := |root|;
    var n := |full| - |Anchor|;
    AnchorAfterRoot(root, rest);
    forall k | i < k <= n ensures !OccursAt(full, Anchor, k) {
      NoLaterOccurrence(root, rest, k);
    }
    AfterLastIs(full, Anchor, i);
    assert full[i + |Anchor|..] == rest;
  }

  /** An occurrence with none after it is the one `AfterLast` cuts at. */
  lemma AfterLastIs(s: string, sep: string, i: int)
    requires OccursAt(s, sep, i)
    requires forall k | i < k <= |s| - |sep| :: !OccursAt(s, sep, k)
    ensures AfterLast(s, sep) == s[i + |sep|..]
  {
    LastOccurrenceIs(s, sep, i, |s| - |sep|);
  }

  /** The path separators of Windows. */
  predicate IsSep(c: char)
  {
    c == '\\' || c == '/'
  }

  /** The length of the drive of `path` (`X:`), or 0 when it has none. */
  function DriveLength(path: string): nat
  {
    if |path| >= 2 && path[1] == ':' then 2 else 0
  }

  /** Where the base name starts: after the drive and after the last separator. */
  function BaseStart(path: string): (i: nat)
    ensures i <= |path|
  {
    var afterSep := LastIndex(path, IsSep) + 1;
    if afterSep > DriveLength(path) then afterSep else DriveLength(path)
  }

  /** `ntpath.basename(path)`: a drive (`X:`) dropped, then whatever follows the last
      separator. */
  function BaseName(path: string): string
  {
    path[BaseStart(path)..]
  }

  /** The base name ends the path and holds no separator. */
  lemma BaseNameFacts(path: string)
    ensures |BaseName(path)| <= |path| && BaseName(path) == path[|path| - |BaseName(path)|..]
    ensures forall i | 0 <= i < |BaseName(path)| :: !IsSep(BaseName(path)[i])
  {
    var start := BaseStart(path);
    var r := path[start..];
    LastIndexFacts(path, IsSep);
    forall i | 0 <= i < |r| ensures !IsSep(r[i]) {
      assert r[i] == path[start + i];
    }
  }

  /** A file in a folder has its own name as base name. */
  lemma BaseNameInFolder(folder: string, name: string)
    requires folder != []
    requires forall i | 0 <= i < |name| :: !IsSep(name[i])
    ensures BaseName(folder + "\\" + name) == name
  {
    var path := folder + "\\" + name;
    var k := |folder|;
    assert path[k] == '\\';
    forall j | k < j < |path| ensures !IsSep(path[j]) {
      assert path[j] == name[j - k - 1];
    }
    LastIndexIs(path, IsSep, k);
    assert path[k + 1..] == name;
  }

  /** The index of the last character of `s` that satisfies `inClass`, or -1
      (`s.rfind(c)` for a class of characters). */
  function LastIndex(s: string, inClass: char -> bool): (r: int)
    ensures -1 <= r < |s|
  {
    if s == [] then -1
    else if inClass(s[|s| - 1]) then |s| - 1
    else LastIndex(s[..|s| - 1], inClass)
  }

  /** The last index is the one position in the class with none after it, or -1
      when no character is in the class. */
  lemma {:induction false} LastIndexIs(s: string, inClass: char -> bool, k: int)
    requires -1 <= k < |s|
    requires k >= 0 ==> inClass(s[k])
    requires forall j | k < j < |s| :: !inClass(s[j])
    ensures LastIndex(s, inClass) == k
  {
    if s != [] && !inClass(s[|s| - 1]) {
      var init := s[..|s| - 1];
      forall j | k < j < |init| ensures !inClass(init[j]) {
        assert init[j] == s[j];
      }
      assert k >= 0 ==> init[k] == s[k];
      LastIndexIs(init, inClass, k);
    }
  }

  /** The character at the last index is in the class, and none after it is. */
  lemma {:induction false} LastIndexFacts(s: string, inClass: char -> bool)
    ensures var r := LastIndex(s, inClass);
      && (r >= 0 ==> inClass(s[r]))
      && forall j | r < j < |s| :: !inClass(s[j])
  {
    if s != [] && !inClass(s[|s| - 1]) {
      LastIndexFacts(s[..|s| - 1], inClass);
    }
  }

  predicate IsDot(c: char)
  {
    c == '.'
  }

  /** True when every character of `s` is a dot. */
  predicate AllDots(s: string)
  {
    forall i | 0 <= i < |s| :: s[i] == '.'
  }

  /** `os.path.splitext(name)[0]` with the Windows separators: the last dot of the
      final path component starts the extension, unless only dots precede it there
      (`.profile` has no extension). */
  function StemOf(name: string): string
  {
    var sepIndex := LastIndex(name, IsSep);
    var dot := LastIndex(name, IsDot);
    if dot > sepIndex && !AllDots(name[sepIndex + 1..dot]) then name[..dot] else name
  }

  /** The stem is the name, or the name cut before a dot that is its last one. */
  lemma StemFacts(name: string)
    ensures var r := StemOf(name); r <= name && (r == name || (name[|r|] == '.' && '.' !in name[|r| + 1..]))
  {
    var sepIndex := LastIndex(name, IsSep);
    var dot := LastIndex(name, IsDot);
    LastIndexFacts(name, IsDot);
    if dot > sepIndex && !AllDots(name[sepIndex + 1..dot]) {
      var ext := name[dot + 1..];
      assert StemOf(name) == name[..dot];
      assert forall j | 0 <= j < |ext| :: ext[j] == name[dot + 1 + j];
      assert forall j | 0 <= j < |ext| :: ext[j] != '.';
      assert '.' !in ext;
    } else {
      assert StemOf(name) == name;
    }
  }

  /** A name whose extension starts after at least one other character loses it. */
  lemma StemDropsExtension(stem: string, ext: string)
    requires stem != [] && !AllDots(stem) && '.' !in ext
    requires forall i | 0 <= i < |stem| :: !IsSep(stem[i])
    requires forall i | 0 <= i < |ext| :: !IsSep(ext[i])
    ensures StemOf(stem + "." + ext) == stem
  {
    var name := stem + "." + ext;
    assert name[|stem|] == '.';
    forall j | |stem| < j < |name| ensures !IsDot(name[j]) && !IsSep(name[j]) {
      assert name[j] == ext[j - |stem| - 1];
    }
    forall j | 0 <= j < |stem| ensures !IsSep(name[j]) {
      assert name[j] == stem[j];
    }
    LastIndexIs(name, IsDot, |stem|);
    LastIndexIs(name, IsSep, -1);
    assert name[..|stem|] == stem;
    assert name[0..|stem|] == stem;
  }

  /** A name made of dots and then letters, like `.profile`, keeps its leading dots
      and has no extension. */
  lemma StemKeepsDotName(rest: string)
    requires '.' !in rest
    ensures StemOf("." + rest) == "." + rest
  {
    var name := "." + rest;
    assert name[0] == '.';
    forall j | 0 < j < |name| ensures !IsDot(name[j]) {
      assert name[j] == rest[j - 1];
    }
    LastIndexIs(name, IsDot, 0);
  }

  /** The file name an attachment is given: the base name of its relative path
      without extension. */
  function FileName(full: string): string
  {
    StemOf(BaseName(RelativePath(full)))
  }

  /** The attachment record for one saved resource (lines 205-209 and 215-219). */
  function AttachmentFor(full: string): Json
  {
    var name := FileName(full);
    Obj(map["file_path" := Str(RelativePath(full)), "file_name_in_polarion" := Str(name), "title" := Str(name)])
  }

  /** A record holds the relative path, and the file name twice: as the name in the
      target system and as the title. */
  lemma AttachmentFields(full: string)
    ensures AttachmentFor(full).Obj?
    ensures AttachmentFor(full).fields.Keys == {"file_path", "file_name_in_polarion", "title"}
    ensures AttachmentFor(full).fields["file_path"] == Str(RelativePath(full))
    ensures AttachmentFor(full).fields["title"] == AttachmentFor(full).fields["file_name_in_polarion"] == Str(FileName(full))
  {
  }

  /** The records of a run of paths, one per path (the appends of lines 205 and
      215). */
  function Records(paths: seq<string>): (r: seq<Json>)
    ensures |r| == |paths|
  {
    if paths == [] then [] else [AttachmentFor(paths[0])] + Records(paths[1..])
  }

  /** The records are in the order of the paths. */
  lemma {:induction false} RecordsAt(paths: seq<string>, i: nat)
    requires i < |paths|
    ensures Records(paths)[i] == AttachmentFor(paths[i])
  {
    if i > 0 {
      assert paths[1..][i - 1] == paths[i];
      RecordsAt(paths[1..], i - 1);
    }
  }

  /** A prefix one longer is the prefix and the next element. */
  lemma TakeOneMore<T>(s: seq<T>, i: nat)
    requires i < |s|
    ensures s[..i + 1] == s[..i] + [s[i]]
  {
  }

  /** Appending a path appends its record. */
  lemma {:induction false} RecordsAppend(paths: seq<string>, p: string)
    ensures Records(paths + [p]) == Records(paths) + [AttachmentFor(p)]
  {
    if paths != [] {
      DropOfAppend(paths, [p]);
      RecordsAppend(paths[1..], p);
    }
  }

  /** The records of two runs of paths, one after the other. */
  lemma {:induction false} RecordsConcat(xs: seq<string>, ys: seq<string>)
    ensures Records(xs + ys) == Records(xs) + Records(ys)
  {
    if xs == [] {
      assert xs + ys == ys;
    } else {
      DropOfAppend(xs, ys);
      RecordsConcat(xs[1..], ys);
    }
  }

  /** Dropping the head of a concatenation whose first part is not empty. */
  lemma DropOfAppend<T>(xs: seq<T>, ys: seq<T>)
    requires xs != []
    ensures (xs + ys)[0] == xs[0] && (xs + ys)[1..] == xs[1..] + ys
  {
  }

  /** What iterating over the embedded-resources value yields: the strings of a list,
      or the characters of a string, each one a path of its own. */
  predicate IterablePaths(v: Json)
  {
    v.Str? || (v.Arr? && forall i | 0 <= i < |v.items| :: v.items[i].Str?)
  }

  /** The saved-resource fields take values the loop can read: a truthy
      `wrapped_resource_saved_as` is a string (it is split), and a truthy
      `embedded_wrapped_resources_saved` is a string or a list of strings. A dict
      value, which Python would iterate key by key, is not modelled. */
  predicate ResourcesReadable(a: Dict)
  {
    && ("wrapped_resource_saved_as" in a && Truthy(a["wrapped_resource_saved_as"]) ==> a["wrapped_resource_saved_as"].Str?)
    && ("embedded_wrapped_resources_saved" in a && Truthy(a["embedded_wrapped_resources_saved"]) ==>
          IterablePaths(a["embedded_wrapped_resources_saved"]))
  }

  /** The paths iterating over an embedded-resources value yields, in order. */
  function EmbeddedPaths(v: Json): (r: seq<string>)
    requires IterablePaths(v)
    ensures v.Arr? ==> |r| == |v.items| && forall i | 0 <= i < |r| :: r[i] == v.items[i].s
    ensures v.Str? ==> |r| == |v.s| && forall i | 0 <= i < |r| :: r[i] == [v.s[i]]
  {
    if v.Str? then seq(|v.s|, i requires 0 <= i < |v.s| => [v.s[i]])
    else seq(|v.items|, i requires 0 <= i < |v.items| => v.items[i].s)
  }

  /** The wrapped resource, when there is one (line 201). */
  function WrappedPaths(a: Dict): seq<string>
    requires ResourcesReadable(a)
  {
    if "wrapped_resource_saved_as" in a && Truthy(a["wrapped_resource_saved_as"])
    then [a["wrapped_resource_saved_as"].s] else []
  }

  /** The embedded resources, when there are any (line 211). */
  function EmbeddedResourcePaths(a: Dict): seq<string>
    requires ResourcesReadable(a)
  {
    if "embedded_wrapped_resources_saved" in a && Truthy(a["embedded_wrapped_resources_saved"])
    then EmbeddedPaths(a["embedded_wrapped_resources_saved"]) else []
  }

  /** Every saved resource of an artifact, in the order the loop records them: the
      wrapped resource (if any) first, then the embedded resources in list order. */
  function ResourcePaths(a: Dict): seq<string>
    requires ResourcesReadable(a)
  {
    WrappedPaths(a) + EmbeddedResourcePaths(a)
  }

  /** Nothing is collected exactly when both resource fields are absent or falsy. */
  lemma NoResourcesExactly(a: Dict)
    requires ResourcesReadable(a)
    ensures ResourcePaths(a) == [] <==>
      (("wrapped_resource_saved_as" in a ==> !Truthy(a["wrapped_resource_saved_as"])) &&
       ("embedded_wrapped_resources_saved" in a ==> !Truthy(a["embedded_wrapped_resources_saved"])))
  {
  }

  /** The wrapped resource comes first, the embedded ones follow in list order. */
  lemma WrappedComesFirst(a: Dict, w: string, embedded: seq<string>)
    requires "wrapped_resource_saved_as" in a && a["wrapped_resource_saved_as"] == Str(w) && w != []
    requires "embedded_wrapped_resources_saved" in a
    requires a["embedded_wrapped_resources_saved"] == Arr(seq(|embedded|, i requires 0 <= i < |embedded| => Str(embedded[i])))
    ensures ResourcesReadable(a)
    ensures ResourcePaths(a) == [w] + embedded
  {
    var v := a["embedded_wrapped_resources_saved"];
    if embedded != [] {
      assert v.items[0] == Str(embedded[0]);
      assert EmbeddedPaths(v) == embedded;
    }
  }

  /** Lines 212-219: one record appended per path, in order. */
  method AppendRecords(acc: seq<Json>, paths: seq<string>) returns (attachments: seq<Json>)
    ensures attachments == acc + Records(paths)
  {
    attachments := acc;
    var i := 0;
    while i < |paths|
      invariant 0 <= i <= |paths|
      invariant attachments == acc + Records(paths[..i])
    {
      RecordsAppend(paths[..i], paths[i]);
      TakeOneMore(paths, i);
      attachments := attachments + [AttachmentFor(paths[i])];
      i := i + 1;
    }
    assert paths[..|paths|] == paths;
  }

  /** Lines 199-219: the attachment records of an artifact, the wrapped resource's
      first, then one per embedded resource. */
  method CollectAttachments(a: Dict) returns (attachments: seq<Json>)
    requires ResourcesReadable(a)
    ensures attachments == Records(ResourcePaths(a))
  {
    attachments := [];
    if "wrapped_resource_saved_as" in a && Truthy(a["wrapped_resource_saved_as"]) {
      var fullPath := a["wrapped_resource_saved_as"].s;
      attachments := attachments + [AttachmentFor(fullPath)];
    }
    assert attachments == Records(WrappedPaths(a));
    if "embedded_wrapped_resources_saved" in a && Truthy(a["embedded_wrapped_resources_saved"]) {
      var paths := EmbeddedPaths(a["embedded_wrapped_resources_saved"]);
      attachments := AppendRecords(attachments, paths);
    }
    RecordsConcat(WrappedPaths(a), EmbeddedResourcePaths(a));
  }

  /** The attachments already there, which the new records are appended to. */
  function ExistingAttachments(a: Dict): seq<Json>
  {
    if "attachments" in a && a["attachments"].Arr? then a["attachments"].items else []
  }

  /** The attachment records of `a`'s saved resources. */
  function Collected(a: Dict): seq<Json>
    requires ResourcesReadable(a)
  {
    Records(ResourcePaths(a))
  }

  /** `n` with the attachment records of `a` appended to its attachments, when there
      are any. */
  function WithAttachments(a: Dict, n: Dict): Dict
    requires ResourcesReadable(a)
  {
    if Collected(a) == [] then n
    else n["attachments" := Arr(ExistingAttachments(a) + Collected(a))]
  }

  /** Lines 199-224: the attachment records are collected and, if there are any,
      appended to the attachments, which are created empty when missing. */
  method AppendAttachments(artifact: Dict, newArtifact: Dict) returns (r: Dict)
    requires ResourcesReadable(artifact)
    requires Collected(artifact) != [] && "attachments" in artifact ==> artifact["attachments"].Arr?
    requires "attachments" in newArtifact <==> "attachments" in artifact
    requires "attachments" in artifact ==> newArtifact["attachments"] == artifact["attachments"]
    ensures r == WithAttachments(artifact, newArtifact)
  {
    r := newArtifact;
    var attachments := CollectAttachments(artifact);
    if attachments != [] {
      if "attachments" !in r {
        r := r["attachments" := Arr([])];
      }
      r := r["attachments" := Arr(r["attachments"].items + attachments)];
    }
  }
}
