/**
 * How fileDownload turns a request URI into a storage location: the first
 * occurrence of the public upload prefix is removed (String.replaceFirst with
 * an empty replacement) and the remainder is joined onto the storage root by
 * Paths.get, which on a Unix file system joins with '/', collapses repeated
 * slashes and drops a trailing slash, but never resolves "." or "..".
 */
module UploadPaths {
  import opened Wrappers

  /** Characters that are special in a Java regular expression outside a character class. */
  predicate NoRegexMetachar(p: string) {
    forall i :: 0 <= i < |p| ==> p[i] !in "\\^$.|?*+()[]{}"
  }

  /** p occurs in s at index i. */
  predicate OccursAt(s: string, p: string, i: nat) {
    i + |p| <= |s| && s[i..i + |p|] == p
  }

  /** The index of the first occurrence of p in s at or after from. */
  function FindFirst(s: string, p: string, from: nat): (r: Option<nat>)
    requires from <= |s|
    decreases |s| - from
    ensures r.Some? ==> from <= r.value && OccursAt(s, p, r.value)
    ensures r.Some? ==> forall j :: from <= j < r.value ==> !OccursAt(s, p, j)
    ensures r.None? <==> forall j :: from <= j <= |s| ==> !OccursAt(s, p, j)
  {
    if OccursAt(s, p, from) then Some(from)
    else if from == |s| then None
    else FindFirst(s, p, from + 1)
  }

  /**
   * s.replaceFirst(p, ""), for a p with no regular-expression metacharacters:
   * the first occurrence of p is cut out wherever it stands; without one, s
   * is returned unchanged.
   */
  function RemoveFirst(s: string, p: string): (r: string)
    ensures FindFirst(s, p, 0).None? ==> r == s
    ensures FindFirst(s, p, 0).Some? ==>
      var i := FindFirst(s, p, 0).value;
      |r| == |s| - |p| && i <= |r| && s == r[..i] + p + r[i..]
  {
    match FindFirst(s, p, 0)
    case None => s
    case Some(i) => s[..i] + s[i + |p|..]
  }

  /** UnixFileSystem.getPath(first, more): more is appended after a '/' unless either part is empty. */
  function JoinPath(first: string, more: string): string {
    if more == [] then first
    else if first == [] then more
    else first + "/" + more
  }

  /** s has no two slashes in a row. */
  predicate NoDoubleSlash(s: string) {
    forall i, j :: 0 <= i < |s| && 0 <= j < |s| && j == i + 1 ==> !(s[i] == '/' && s[j] == '/')
  }

  /** Removes every '/' that directly follows another '/'. */
  function CollapseSlashes(s: string): (r: string)
    ensures |r| <= |s|
  {
    if |s| < 2 then s
    else if s[0] == '/' && s[1] == '/' then CollapseSlashes(s[1..])
    else [s[0]] + CollapseSlashes(s[1..])
  }

  /** UnixPath's normalisation: repeated slashes collapsed, a trailing slash dropped unless the path is "/". */
  function Normalize(s: string): string {
    var c := CollapseSlashes(s);
    if |c| > 1 && c[|c| - 1] == '/' then c[..|c| - 1] else c
  }

  /**
   * Paths.get(root, rest), or None where it throws InvalidPathException for
   * a NUL character; characters the native charset cannot encode are not
   * modelled.
   */
  function PathsGet(root: string, rest: string): (r: Option<string>)
    ensures r.None? <==> '\0' in JoinPath(root, rest)
  {
    var joined := JoinPath(root, rest);
    if '\0' in joined then None else Some(Normalize(joined))
  }

  /**
   * The location fileDownload hands to the resource loader, or None where the
   * handler catches an exception and returns null: a missing prefix setting
   * (replaceFirst(null) throws) or an invalid path.
   */
  function ResolveDownload(uri: string, prefix: Option<string>, root: string): (r: Option<string>)
    requires prefix.Some? ==> NoRegexMetachar(prefix.value)
    ensures prefix.None? ==> r.None?
    ensures prefix.Some? ==>
      var rest := RemoveFirst(uri, prefix.value);
      (r.None? <==> '\0' in JoinPath(root, rest)) &&
      (r.Some? ==> r.value == "file:" + Normalize(JoinPath(root, rest)))
  {
    match prefix
    case None => None
    case Some(p) =>
      match PathsGet(root, RemoveFirst(uri, p))
      case None => None
      case Some(path) => Some("file:" + path)
  }

  // ---- Path segments: what normalisation keeps ----

  function Flush(cur: string): seq<string> {
    if cur == [] then [] else [cur]
  }

  /** The non-empty '/'-separated names of s, where cur is the name being read. */
  function SegmentsFrom(cur: string, s: string): seq<string>
    decreases |s|
  {
    if s == [] then Flush(cur)
    else if s[0] == '/' then Flush(cur) + SegmentsFrom([], s[1..])
    else SegmentsFrom(cur + [s[0]], s[1..])
  }

  /** The names of a path, in order: "/a//b/" has the names "a" and "b". */
  function Segments(s: string): seq<string> {
    SegmentsFrom([], s)
  }

  lemma {:induction false} SegmentsFromSlashJoin(cur: string, a: string, b: string)
    ensures SegmentsFrom(cur, a + "/" + b) == SegmentsFrom(cur, a) + SegmentsFrom([], b)
    decreases |a|
  {
    if a == [] {
      assert a + "/" + b == "/" + b;
      assert ("/" + b)[1..] == b;
    } else {
      assert (a + "/" + b)[0] == a[0];
      assert (a + "/" + b)[1..] == a[1..] + "/" + b;
      if a[0] == '/' {
        SegmentsFromSlashJoin([], a[1..], b);
      } else {
        SegmentsFromSlashJoin(cur + [a[0]], a[1..], b);
      }
    }
  }

  /** Joining with a '/' concatenates the names. */
  lemma SegmentsOfJoin(first: string, more: string)
    ensures Segments(JoinPath(first, more)) == Segments(first) + Segments(more)
  {
    if more != [] && first != [] {
      SegmentsFromSlashJoin([], first, more);
    }
  }

  lemma {:induction false} SegmentsFromCollapse(cur: string, s: string)
    ensures SegmentsFrom(cur, CollapseSlashes(s)) == SegmentsFrom(cur, s)
    decreases |s|
  {
    if |s| < 2 {
    } else if s[0] == '/' && s[1] == '/' {
      SegmentsFromCollapse(cur, s[1..]);
      assert s[1..][1..] == s[2..];
    } else {
      var t := CollapseSlashes(s[1..]);
      assert ([s[0]] + t)[0] == s[0] && ([s[0]] + t)[1..] == t;
      if s[0] == '/' {
        SegmentsFromCollapse([], s[1..]);
      } else {
        SegmentsFromCollapse(cur + [s[0]], s[1..]);
      }
    }
  }

  /** Normalisation changes the spelling of a path but not its names. */
  lemma SegmentsOfNormalize(s: string)
    ensures Segments(Normalize(s)) == Segments(s)
  {
    var c := CollapseSlashes(s);
    SegmentsFromCollapse([], s);
    if |c| > 1 && c[|c| - 1] == '/' {
      var d := c[..|c| - 1];
      assert c == d + "/" + [];
      SegmentsFromSlashJoin([], d, []);
    }
  }

  /**
   * The resolved location names the root's names followed by the names of
   * what is left of the URI.  In particular a ".." in the URI is still there
   * afterwards: nothing keeps the location under the storage root.
   */
  lemma {:induction false} DownloadKeepsSegments(uri: string, prefix: string, root: string)
    requires NoRegexMetachar(prefix)
    requires '\0' !in JoinPath(root, RemoveFirst(uri, prefix))
    ensures ResolveDownload(uri, Some(prefix), root).Some?
    ensures var path := ResolveDownload(uri, Some(prefix), root).value[|"file:"|..];
      Segments(path) == Segments(root) + Segments(RemoveFirst(uri, prefix))
    ensures ".." in Segments(RemoveFirst(uri, prefix)) ==>
      ".." in Segments(ResolveDownload(uri, Some(prefix), root).value[|"file:"|..])
  {
    var joined := JoinPath(root, RemoveFirst(uri, prefix));
    SegmentsOfNormalize(joined);
    SegmentsOfJoin(root, RemoveFirst(uri, prefix));
  }

  /** A URI that starts with the prefix loses exactly that prefix. */
  lemma LeadingPrefixStripped(prefix: string, rest: string)
    ensures RemoveFirst(prefix + rest, prefix) == rest
  {
    var s := prefix + rest;
    assert OccursAt(s, prefix, 0) by { assert s[..|prefix|] == prefix; }
    assert s[|prefix|..] == rest;
  }

  /** The prefix is cut where it first occurs, not only at the start of the URI. */
  lemma PrefixRemovedInTheMiddle()
    ensures RemoveFirst("/app/upload/a.png", "/upload") == "/app/a.png"
  {
    var s := "/app/upload/a.png";
    assert OccursAt(s, "/upload", 4) by { assert s[4..11] == "/upload"; }
    forall j | 0 <= j < 4 ensures !OccursAt(s, "/upload", j) {
      assert s[j..j + 7][1] == s[j + 1];
    }
    assert FindFirst(s, "/upload", 0) == Some(4);
  }

  /** A URI without the prefix is used as it is. */
  lemma AbsentPrefixKeepsUri()
    ensures RemoveFirst("/img/a.png", "/upload") == "/img/a.png"
  {
    var s := "/img/a.png";
    forall j | 0 <= j <= |s| ensures !OccursAt(s, "/upload", j) {
      if j + 7 <= |s| {
        assert s[j..j + 7][0] == s[j] && s[j..j + 7][1] == s[j + 1];
      }
    }
  }

  /** Collapsing keeps the first and last character and leaves no doubled slash. */
  lemma {:induction false} CollapseFacts(s: string)
    ensures var c := CollapseSlashes(s);
      NoDoubleSlash(c) && (|s| > 0 ==> |c| > 0 && c[0] == s[0] && c[|c| - 1] == s[|s| - 1])
    decreases |s|
  {
    if |s| >= 2 {
      CollapseFacts(s[1..]);
      if !(s[0] == '/' && s[1] == '/') {
        var t := CollapseSlashes(s[1..]);
        var c := [s[0]] + t;
        forall i, j | 0 <= i < |c| && 0 <= j < |c| && j == i + 1
          ensures !(c[i] == '/' && c[j] == '/')
        {
          if i > 0 {
            assert c[i] == t[i - 1] && c[j] == t[j - 1];
          }
        }
      }
    }
  }

  /**
   * Paths.get's output is canonical: no doubled slash, no trailing slash
   * except on "/", and empty only for the empty path; its first character is
   * the input's, so an absolute path stays absolute.
   */
  lemma NormalizeCanonical(s: string)
    ensures var r := Normalize(s);
      NoDoubleSlash(r) && (|r| > 1 ==> r[|r| - 1] != '/') && (r == [] <==> s == []) &&
      (s != [] ==> r[0] == s[0])
  {
    CollapseFacts(s);
    var c := CollapseSlashes(s);
    if |c| > 1 && c[|c| - 1] == '/' {
      var r := c[..|c| - 1];
      var i, j := |c| - 2, |c| - 1;
      assert c[i] != '/';
      assert r[|r| - 1] == c[i];
      assert r[0] == c[0];
    }
  }

  lemma {:induction false} CollapseKeepsClean(s: string)
    requires NoDoubleSlash(s)
    ensures CollapseSlashes(s) == s
    decreases |s|
  {
    if |s| >= 2 {
      CollapseKeepsClean(s[1..]);
    }
  }

  /** A clean path joined with '/' onto a clean remainder that starts with '/' loses the doubled slash only. */
  lemma {:induction false} CollapseSlashJoin(a: string, t: string)
    requires a != [] && NoDoubleSlash(a) && a[|a| - 1] != '/'
    requires NoDoubleSlash(t) && t != [] && t[0] == '/'
    ensures CollapseSlashes(a + "/" + t) == a + t
    decreases |a|
  {
    var s := a + "/" + t;
    assert s[0] == a[0];
    if |a| == 1 {
      var u := "/" + t;
      assert s == [a[0]] + u && s[1..] == u;
      assert a[0] != '/';
      assert CollapseSlashes(s) == [a[0]] + CollapseSlashes(u);
      assert u[0] == '/' && u[1] == '/' && u[1..] == t;
      assert CollapseSlashes(u) == CollapseSlashes(t);
      CollapseKeepsClean(t);
      assert a == [a[0]];
    } else {
      var a' := a[1..];
      assert s[1] == a[1];
      assert s[1..] == a' + "/" + t;
      assert CollapseSlashes(s) == [a[0]] + CollapseSlashes(a' + "/" + t);
      assert a'[|a'| - 1] == a[|a| - 1];
      CollapseSlashJoin(a', t);
      assert a + t == [a[0]] + (a' + t);
    }
  }

  /** Paths.get of a clean root and a clean remainder starting with '/' is their concatenation. */
  lemma PathsGetCleanJoin(root: string, rest: string)
    requires root != [] && NoDoubleSlash(root) && root[|root| - 1] != '/'
    requires rest != [] && rest[0] == '/' && rest[|rest| - 1] != '/' && NoDoubleSlash(rest)
    requires '\0' !in root && '\0' !in rest
    ensures PathsGet(root, rest) == Some(root + rest)
  {
    var joined := root + "/" + rest;
    assert JoinPath(root, rest) == joined;
    assert '\0' !in joined;
    CollapseSlashJoin(root, rest);
    var c := root + rest;
    assert c[|c| - 1] == rest[|rest| - 1];
  }

  /**
   * The ordinary download: a URI made of the prefix and a clean remainder
   * resolves to the storage root followed by that remainder.
   */
  lemma ResolveUnderRoot(prefix: string, rest: string, root: string)
    requires NoRegexMetachar(prefix)
    requires root != [] && NoDoubleSlash(root) && root[|root| - 1] != '/'
    requires rest != [] && rest[0] == '/' && rest[|rest| - 1] != '/' && NoDoubleSlash(rest)
    requires '\0' !in root && '\0' !in rest
    ensures ResolveDownload(prefix + rest, Some(prefix), root) == Some("file:" + (root + rest))
  {
    var uri := prefix + rest;
    LeadingPrefixStripped(prefix, rest);
    PathsGetCleanJoin(root, rest);
    var stripped := RemoveFirst(uri, prefix);
    assert stripped == rest;
    assert PathsGet(root, stripped) == Some(root + rest);
    assert ResolveDownload(uri, Some(prefix), root) == Some("file:" + (root + rest));
  }

  /** The root and remainders of the two examples below are clean. */
  lemma ExamplePartsClean()
    ensures NoRegexMetachar("/upload")
    ensures NoDoubleSlash("/data/files") && '\0' !in "/data/files"
    ensures NoDoubleSlash("/images/a.png") && '\0' !in "/images/a.png"
    ensures NoDoubleSlash("/../../etc/passwd") && '\0' !in "/../../etc/passwd"
  {
  }

  /** The ordinary case: "/upload/images/a.png" under "/data/files". */
  lemma ResolveExample()
    ensures ResolveDownload("/upload/images/a.png", Some("/upload"), "/data/files")
            == Some("file:/data/files/images/a.png")
  {
    var uri, prefix, root, rest := "/upload/images/a.png", "/upload", "/data/files", "/images/a.png";
    assert prefix + rest == uri;
    assert "file:" + (root + rest) == "file:/data/files/images/a.png";
    ExamplePartsClean();
    ResolveUnderRoot(prefix, rest, root);
  }

  /**
   * No containment guard: "/upload/../../etc/passwd" resolves to a location
   * that climbs out of "/data/files".
   */
  lemma TraversalNotRejected()
    ensures ResolveDownload("/upload/../../etc/passwd", Some("/upload"), "/data/files")
            == Some("file:/data/files/../../etc/passwd")
  {
    var uri, prefix, root, rest := "/upload/../../etc/passwd", "/upload", "/data/files", "/../../etc/passwd";
    assert prefix + rest == uri;
    assert "file:" + (root + rest) == "file:/data/files/../../etc/passwd";
    ExamplePartsClean();
    ResolveUnderRoot(prefix, rest, root);
  }
}
