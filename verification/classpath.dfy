/**
 Class-path expansion: a class path naming a directory is extended with
 every jar file directly inside it. The file system is replaced by the
 status of the path and, for a directory, its listing.
 */
module ClassPath {

  /** One file of a directory listing: its name and its absolute path. */
  datatype DirEntry = DirEntry(name: string, absolutePath: string)

  /** What the class path denotes on disk. */
  datatype PathStatus = Missing | NotDirectory | Directory(listing: seq<DirEntry>)

  /** Case-sensitive suffix test, as String.endsWith. */
  predicate EndsWith(s: string, suffix: string)
  {
    |suffix| <= |s| && s[|s| - |suffix|..] == suffix
  }

  predicate IsJar(e: DirEntry)
  {
    EndsWith(e.name, ".jar")
  }

  /** Absolute paths of the jar files of a listing, in listing order. */
  function JarPaths(listing: seq<DirEntry>): seq<string>
  {
    if |listing| == 0 then []
    else (if IsJar(listing[0]) then [listing[0].absolutePath] else []) + JarPaths(listing[1..])
  }

  /** Each path preceded by the separator ':'. */
  function Separated(paths: seq<string>): string
  {
    if |paths| == 0 then "" else ":" + paths[0] + Separated(paths[1..])
  }

  lemma {:induction false} JarPathsSnoc(listing: seq<DirEntry>, e: DirEntry)
    ensures JarPaths(listing + [e]) == JarPaths(listing) + (if IsJar(e) then [e.absolutePath] else [])
  {
    if |listing| == 0 {
      assert listing + [e] == [e];
      assert [e][1..] == [];
    } else {
      assert (listing + [e])[1..] == listing[1..] + [e];
      JarPathsSnoc(listing[1..], e);
    }
  }

  lemma {:induction false} SeparatedAppend(a: seq<string>, b: seq<string>)
    ensures Separated(a + b) == Separated(a) + Separated(b)
  {
    if |a| == 0 {
      assert a + b == b;
    } else {
      assert (a + b)[1..] == a[1..] + b;
      SeparatedAppend(a[1..], b);
    }
  }

  /**
   The expanded class path: the path itself, followed by ":" and the
   absolute path of each jar in the directory it names.
   */
  function Expand(cp: string, status: PathStatus): (r: string)
    ensures |cp| <= |r| && r[..|cp|] == cp
    ensures !status.Directory? ==> r == cp
  {
    if status.Directory? then cp + Separated(JarPaths(status.listing)) else cp
  }

  /**
   parseClassPath: the class path itself, followed by ":" and the absolute
   path of each jar in the directory it names, in listing order.
   */
  method ParseClassPath(cp: string, status: PathStatus) returns (res: string)
    ensures |cp| <= |res| && res[..|cp|] == cp
    ensures !status.Directory? ==> res == cp
    ensures status.Directory? ==> res == cp + Separated(JarPaths(status.listing))
    ensures res == Expand(cp, status)
  {
    res := cp;
    if status.Directory? {
      var listing := status.listing;
      var i := 0;
      while i < |listing|
        invariant 0 <= i <= |listing|
        invariant res == cp + Separated(JarPaths(listing[..i]))
      {
        assert listing[..i + 1] == listing[..i] + [listing[i]];
        if IsJar(listing[i]) {
          JarEntryAppends(listing[..i], listing[i]);
          res := res + ":";
          res := res + listing[i].absolutePath;
        } else {
          NonJarAddsNothing(listing[..i], listing[i]);
        }
        i := i + 1;
      }
      assert listing[..i] == listing;
    }
  }

  /** A jar entry adds exactly ":" and its absolute path to the expansion. */
  lemma JarEntryAppends(listing: seq<DirEntry>, e: DirEntry)
    requires IsJar(e)
    ensures Separated(JarPaths(listing + [e])) == Separated(JarPaths(listing)) + ":" + e.absolutePath
  {
    JarPathsSnoc(listing, e);
    SeparatedAppend(JarPaths(listing), [e.absolutePath]);
  }

  /** Any other entry adds nothing. */
  lemma NonJarAddsNothing(listing: seq<DirEntry>, e: DirEntry)
    requires !IsJar(e)
    ensures Separated(JarPaths(listing + [e])) == Separated(JarPaths(listing))
  {
    JarPathsSnoc(listing, e);
    assert JarPaths(listing) + [] == JarPaths(listing);
  }

  /** Number of ':' characters in a string. */
  function Colons(s: string): nat
  {
    if |s| == 0 then 0 else (if s[0] == ':' then 1 else 0) + Colons(s[1..])
  }

  lemma {:induction false} ColonsAppend(a: string, b: string)
    ensures Colons(a + b) == Colons(a) + Colons(b)
  {
    if |a| == 0 {
      assert a + b == b;
    } else {
      assert (a + b)[1..] == a[1..] + b;
      ColonsAppend(a[1..], b);
    }
  }

  /**
   When no jar path itself contains ':', the expansion adds exactly one
   separator per jar file of the listing.
   */
  lemma {:induction false} SeparatorsCountJars(paths: seq<string>)
    requires forall i :: 0 <= i < |paths| ==> Colons(paths[i]) == 0
    ensures Colons(Separated(paths)) == |paths|
  {
    if |paths| > 0 {
      SeparatorsCountJars(paths[1..]);
      ColonsAppend(":" + paths[0], Separated(paths[1..]));
      ColonsAppend(":", paths[0]);
      assert (":")[1..] == "";
    }
  }

  /** The sample directory: one jar among other files. */
  lemma ExpandsOnlyJars()
    ensures var listing := [DirEntry("a.jar", "/lib/a.jar"), DirEntry("notes.txt", "/lib/notes.txt")];
            Separated(JarPaths(listing)) == ":/lib/a.jar"
  {
    var listing := [DirEntry("a.jar", "/lib/a.jar"), DirEntry("notes.txt", "/lib/notes.txt")];
    assert IsJar(listing[0]);
    assert !IsJar(listing[1]);
    assert listing[1..][1..] == [];
  }
}
