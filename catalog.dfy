/**
 * The entry list `main` builds: the four search directories, each scanned by
 * `parse_dir`, with the failed scans dropped and the rest concatenated.
 */
module Catalog {
  import opened Wrappers
  import opened Entries

  /** The directories searched, in the order they are scanned; `home` is the value of HOME. */
  function SearchPaths(home: string): seq<string>
  {
    [ "/usr/share/applications",
      "/usr/local/share/applications",
      "/var/lib/flatpak/exports/share/applications",
      home + "/.local/share/applications" ]
  }

  /** What one scan adds to the entry list: its records, or nothing when it failed. */
  function Kept(scan: Result<seq<Desktop>, Error>): seq<Desktop>
  {
    if scan.Ok? then scan.value else []
  }

  /** `filter_map(Result::ok).flatten()`: the records of the successful scans, one scan after the other. */
  function Flatten(scans: seq<Result<seq<Desktop>, Error>>): seq<Desktop>
  {
    if scans == [] then [] else Kept(scans[0]) + Flatten(scans[1..])
  }

  /** The scan of each path, in path order; `fs` tells what each path holds. */
  function Scans(paths: seq<string>, fs: string -> Directory): seq<Result<seq<Desktop>, Error>>
  {
    seq(|paths|, i requires 0 <= i < |paths| => ScanDir(fs(paths[i])))
  }

  /** The entry list of one run of the program. */
  function DesktopEntries(home: string, fs: string -> Directory): seq<Desktop>
  {
    Flatten(Scans(SearchPaths(home), fs))
  }

  /** Flattening two runs of scans gives their records one after the other. */
  lemma {:induction false} FlattenAppend(a: seq<Result<seq<Desktop>, Error>>, b: seq<Result<seq<Desktop>, Error>>)
    ensures Flatten(a + b) == Flatten(a) + Flatten(b)
    decreases |a|
  {
    if a == [] {
      assert a + b == b;
    } else {
      assert (a + b)[1..] == a[1..] + b;
      FlattenAppend(a[1..], b);
    }
  }

  /** A failed scan contributes nothing, wherever it stands. */
  lemma FailedScanContributesNothing(a: seq<Result<seq<Desktop>, Error>>, e: Error, b: seq<Result<seq<Desktop>, Error>>)
    ensures Flatten(a + [Err(e)] + b) == Flatten(a + b)
  {
    var failed: seq<Result<seq<Desktop>, Error>> := [Err(e)];
    assert Flatten(failed) == [] by { assert failed[1..] == []; }
    calc {
      Flatten(a + failed + b);
      { FlattenAppend(a + failed, b); }
      Flatten(a + failed) + Flatten(b);
      { FlattenAppend(a, failed); }
      Flatten(a) + Flatten(failed) + Flatten(b);
      Flatten(a) + Flatten(b);
      { FlattenAppend(a, b); }
      Flatten(a + b);
    }
  }

  /** A record is in the list exactly when some successful scan produced it: no record is filtered out or invented. */
  lemma {:induction false} FlattenMembers(scans: seq<Result<seq<Desktop>, Error>>, d: Desktop)
    ensures d in Flatten(scans) <==> exists i :: 0 <= i < |scans| && scans[i].Ok? && d in scans[i].value
    decreases |scans|
  {
    if scans != [] {
      FlattenMembers(scans[1..], d);
      if d in Flatten(scans[1..]) {
        var i :| 0 <= i < |scans[1..]| && scans[1..][i].Ok? && d in scans[1..][i].value;
        assert scans[i + 1] == scans[1..][i];
      }
      if exists i :: 0 <= i < |scans| && scans[i].Ok? && d in scans[i].value {
        var i :| 0 <= i < |scans| && scans[i].Ok? && d in scans[i].value;
        if i > 0 {
          assert scans[1..][i - 1] == scans[i];
        }
      }
    }
  }

  /** No deduplication: the list is exactly as long as all successful scans together. */
  lemma {:induction false} FlattenLength(scans: seq<Result<seq<Desktop>, Error>>)
    ensures |Flatten(scans)| == TotalKept(scans)
    decreases |scans|
  {
    if scans != [] {
      FlattenLength(scans[1..]);
    }
  }

  /** The number of records of the successful scans. */
  function TotalKept(scans: seq<Result<seq<Desktop>, Error>>): nat
  {
    if scans == [] then 0 else |Kept(scans[0])| + TotalKept(scans[1..])
  }

  /**
   * The entry list is the system directory's records, then /usr/local's, then
   * the flatpak exports', then the user's, unsorted and undeduplicated.
   */
  lemma DesktopEntriesOrder(home: string, fs: string -> Directory)
    ensures DesktopEntries(home, fs) ==
      Kept(ScanDir(fs("/usr/share/applications")))
      + Kept(ScanDir(fs("/usr/local/share/applications")))
      + Kept(ScanDir(fs("/var/lib/flatpak/exports/share/applications")))
      + Kept(ScanDir(fs(home + "/.local/share/applications")))
  {
    var s := Scans(SearchPaths(home), fs);
    assert s == [s[0]] + [s[1]] + [s[2]] + [s[3]];
    FlattenAppend([s[0]] + [s[1]] + [s[2]], [s[3]]);
    FlattenAppend([s[0]] + [s[1]], [s[2]]);
    FlattenAppend([s[0]], [s[1]]);
    forall i | 0 <= i < 4
      ensures Flatten([s[i]]) == Kept(s[i])
    {
      assert [s[i]][1..] == [];
    }
  }

  /** The scans of one more path extend the entry list by what that path's scan keeps. */
  lemma ScansSnoc(paths: seq<string>, i: nat, fs: string -> Directory)
    requires i < |paths|
    ensures Flatten(Scans(paths[..i + 1], fs)) == Flatten(Scans(paths[..i], fs)) + Kept(ScanDir(fs(paths[i])))
  {
    var last: seq<Result<seq<Desktop>, Error>> := [ScanDir(fs(paths[i]))];
    assert Scans(paths[..i + 1], fs) == Scans(paths[..i], fs) + last;
    FlattenAppend(Scans(paths[..i], fs), last);
    assert Flatten(last) == Kept(last[0]) + Flatten(last[1..]);
    assert last[1..] == [];
  }

  /**
   * The search of `main`: each search path scanned by the `parse_dir` loop, a failed
   * scan dropped, the records of the others appended in path order.
   */
  method CollectEntries(home: string, fs: string -> Directory) returns (entries: seq<Desktop>)
    ensures entries == DesktopEntries(home, fs)
  {
    var paths := SearchPaths(home);
    entries := [];
    for i := 0 to |paths|
      invariant entries == Flatten(Scans(paths[..i], fs))
    {
      var scan := ParseDir(fs(paths[i]));
      entries := entries + Kept(scan);
      ScansSnoc(paths, i, fs);
    }
    assert paths[..|paths|] == paths;
  }
}
