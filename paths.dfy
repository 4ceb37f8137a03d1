/** Remote paths and the staging/final naming convention of a delivery. */
module Paths {

  /** A remote path built like `new Path(parent, child)`: the parent directory
      and the child name. The joined, normalised string is not modelled. */
  datatype Path = Path(parent: string, name: string)

  /** The suffix that marks a staging object. */
  const TmpSuffix: string := ".tmp"

  /** Where a delivered file is published: `directory/fileName`. */
  function FinalPath(directory: string, fileName: string): (p: Path)
    ensures p.parent == directory
  {
    Path(directory, fileName)
  }

  /** Where a delivered file is written first: `directory/(fileName + ".tmp")`.
      It lies in the same directory as the final path (so publishing is a
      rename inside one directory) and is never the final path itself. */
  function StagingPath(directory: string, fileName: string): (p: Path)
    ensures p.parent == FinalPath(directory, fileName).parent
    ensures p != FinalPath(directory, fileName)
  {
    assert |fileName + TmpSuffix| != |fileName|;
    Path(directory, fileName + TmpSuffix)
  }

  /** Where the scheme part of a path string would end: the index of its
      first ':' or '/', or its length when it has neither. */
  function SchemeEnd(s: string): (c: nat)
    ensures c <= |s|
    ensures forall i :: 0 <= i < c ==> s[i] != ':' && s[i] != '/'
    ensures c < |s| ==> s[c] == ':' || s[c] == '/'
  {
    if s == [] || s[0] == ':' || s[0] == '/' then 0 else 1 + SchemeEnd(s[1..])
  }

  /** A URI scheme: a letter followed by letters, digits, '+', '-' or '.'. */
  predicate ValidScheme(s: string) {
    && |s| > 0
    && ('a' <= s[0] <= 'z' || 'A' <= s[0] <= 'Z')
    && forall i :: 0 <= i < |s| ==>
         'a' <= s[i] <= 'z' || 'A' <= s[i] <= 'Z' || '0' <= s[i] <= '9' || s[i] in "+-."
  }

  /** Whether a remote path can be built from the string `s`. The string
      must not be empty. A colon before the first slash starts a URI
      scheme: the scheme must be well formed, and an absolute path must
      follow it, since a relative path in an absolute URI is refused. */
  predicate PathStringAccepted(s: string) {
    && s != []
    && var c := SchemeEnd(s);
       c < |s| && s[c] == ':' ==> ValidScheme(s[..c]) && c + 1 < |s| && s[c + 1] == '/'
  }

  /** Whether both paths of a delivery can be built: the staging path from
      the directory and `fileName + ".tmp"`, then the final path from the
      directory and `fileName`. */
  predicate PathsAccepted(directory: string, fileName: string) {
    PathStringAccepted(directory) && PathStringAccepted(fileName + TmpSuffix) && PathStringAccepted(fileName)
  }

  /** For a local file name, which never contains a slash, both paths can be
      built exactly when the directory is accepted and the name is neither
      empty nor contains a colon. */
  lemma PathsAcceptedName(directory: string, fileName: string)
    requires '/' !in fileName
    ensures PathsAccepted(directory, fileName) <==>
              PathStringAccepted(directory) && fileName != [] && ':' !in fileName
  {
    NameAccepted(fileName);
    NameAccepted(fileName + TmpSuffix);
  }

  /** A string without a slash is accepted exactly when it is not empty and
      has no colon: a colon would start a scheme with no absolute path. */
  lemma NameAccepted(s: string)
    requires '/' !in s
    ensures PathStringAccepted(s) <==> s != [] && ':' !in s
  {
    if ':' in s {
      var i :| 0 <= i < |s| && s[i] == ':';
      assert SchemeEnd(s) <= i;
    }
  }

  /** Different files delivered to the same or different directories never
      share a staging path. */
  lemma StagingPathInjective(d1: string, n1: string, d2: string, n2: string)
    ensures StagingPath(d1, n1) == StagingPath(d2, n2) <==> d1 == d2 && n1 == n2
  {
    if StagingPath(d1, n1) == StagingPath(d2, n2) {
      var s := n1 + TmpSuffix;
      assert s == n2 + TmpSuffix;
      assert |n1| == |n2|;
      assert n1 == s[..|n1|];
      assert n2 == s[..|n2|];
    }
  }

  /** The staging path of one file is the final path of another exactly when
      the other file's name is the first one's name followed by ".tmp". */
  lemma StagingMeetsFinal(d1: string, n1: string, d2: string, n2: string)
    ensures StagingPath(d1, n1) == FinalPath(d2, n2) <==> d1 == d2 && n2 == n1 + TmpSuffix
  {
  }

  /** An absolute directory is accepted. */
  lemma AbsoluteAccepted(s: string)
    requires |s| > 0 && s[0] == '/'
    ensures PathStringAccepted(s)
  {
  }

  /** The scheme part ends at the first ':' or '/'. */
  lemma {:induction false} SchemeEndAt(s: string, c: nat)
    requires c < |s| && (s[c] == ':' || s[c] == '/')
    requires forall i :: 0 <= i < c ==> s[i] != ':' && s[i] != '/'
    ensures SchemeEnd(s) == c
  {
    if c > 0 {
      SchemeEndAt(s[1..], c - 1);
    }
  }

  /** A string made of a URI scheme, a colon and an absolute path is
      accepted. */
  lemma SchemeAbsoluteAccepted(scheme: string, rest: string)
    requires ValidScheme(scheme) && |rest| > 0 && rest[0] == '/'
    ensures PathStringAccepted(scheme + ":" + rest)
  {
    var s := scheme + ":" + rest;
    forall i | 0 <= i < |scheme| ensures s[i] != ':' && s[i] != '/' {
      assert s[i] == scheme[i];
    }
    SchemeEndAt(s, |scheme|);
    assert s[..|scheme|] == scheme;
  }

  /** A string made of a URI scheme, a colon and a relative (or empty) path
      is refused. */
  lemma SchemeRelativeRefused(scheme: string, rest: string)
    requires ValidScheme(scheme) && (rest == [] || rest[0] != '/')
    ensures !PathStringAccepted(scheme + ":" + rest)
  {
    var s := scheme + ":" + rest;
    forall i | 0 <= i < |scheme| ensures s[i] != ':' && s[i] != '/' {
      assert s[i] == scheme[i];
    }
    SchemeEndAt(s, |scheme|);
  }

  /** "hdfs:/out" is accepted as a directory; "hdfs:out" is refused. */
  lemma HdfsSchemeExamples()
    ensures PathStringAccepted("hdfs:/out")
    ensures !PathStringAccepted("hdfs:out")
  {
    assert ValidScheme("hdfs");
    SchemeAbsoluteAccepted("hdfs", "/out");
    assert "hdfs" + ":" + "/out" == "hdfs:/out";
    SchemeRelativeRefused("hdfs", "out");
    assert "hdfs" + ":" + "out" == "hdfs:out";
  }

  /** A name that holds a time of day, such as "report-10:30.txt", cannot be
      delivered: its colon starts a scheme. */
  lemma ColonNameRefused()
    ensures !PathStringAccepted("report-10:30.txt")
  {
    SchemeEndAt("report-10:30.txt", 9);
    assert "report-10:30.txt"[10] == '3';
  }

  /** A plain file name under an absolute directory gives paths that can be
      built. */
  lemma ExamplePathsAccepted()
    ensures PathsAccepted("/out", "input.txt")
  {
    AbsoluteAccepted("/out");
    assert ':' !in "input.txt" && '/' !in "input.txt";
    PathsAcceptedName("/out", "input.txt");
  }

  /** The staging path of that file name appends the suffix to it. */
  lemma ExampleStagingPath()
    ensures StagingPath("/out", "input.txt") == Path("/out", "input.txt.tmp")
  {
  }
}
