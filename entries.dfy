/**
 * The `Desktop` record, `Desktop::parse` and `Desktop::parse_dir`.
 *
 * The INI reader and the filesystem are not modelled: a file is given by the
 * reader's result for it, a directory by its listing.
 */
module Entries {
  import opened Wrappers

  /** One section of an INI document: key to value. */
  type Section = map<string, string>

  /** What the INI reader makes of one file: section name to section. */
  type IniFile = map<string, Section>

  /** The errors that reach the callers of `parse` and `parse_dir`. */
  datatype Error =
    | Load(reason: string)        // the INI reader could not read or parse the file
    | NotFound(message: string)   // an I/O error of kind NotFound
    | Listing(reason: string)     // the directory, or one item of its listing, could not be read

  const DesktopSection := "Desktop Entry"
  const NoEntryMessage := "no desktop entry in file"

  /** One launcher: its display name, its command template and whether it runs in a terminal. */
  datatype Desktop = Desktop(name: string, exec: string, term: bool)

  /** The value of `key` in `s`, or `default` when the key is missing. */
  function GetOr(s: Section, key: string, default: string): string
  {
    if key in s then s[key] else default
  }

  /**
   * Builds the record from the "Desktop Entry" section of the loaded file: Name and
   * Exec default to "", Terminal counts only when it is exactly "true".
   */
  function Parse(file: Result<IniFile, Error>): (r: Result<Desktop, Error>)
    ensures r.Ok? <==> file.Ok? && DesktopSection in file.value
    ensures file.Err? ==> r == Err(file.error)
    ensures file.Ok? && DesktopSection !in file.value ==> r == Err(NotFound(NoEntryMessage))
    ensures r.Ok? ==>
      var s := file.value[DesktopSection];
      && ("Name" in s ==> r.value.name == s["Name"])
      && ("Name" !in s ==> r.value.name == "")
      && ("Exec" in s ==> r.value.exec == s["Exec"])
      && ("Exec" !in s ==> r.value.exec == "")
      && (r.value.term <==> "Terminal" in s && s["Terminal"] == "true")
  {
    match file
    case Err(e) => Err(e)
    case Ok(ini) =>
      if DesktopSection in ini then
        var s := ini[DesktopSection];
        Ok(Desktop(GetOr(s, "Name", ""), GetOr(s, "Exec", ""), GetOr(s, "Terminal", "") == "true"))
      else
        Err(NotFound(NoEntryMessage))
  }

  /** Sections other than "Desktop Entry" have no influence on the record. */
  lemma ParseReadsOnlyDesktopSection(f: IniFile, g: IniFile)
    requires DesktopSection in f <==> DesktopSection in g
    requires DesktopSection in f ==> f[DesktopSection] == g[DesktopSection]
    ensures Parse(Ok(f)) == Parse(Ok(g))
  {
  }

  /**
   * One item of a directory listing: either it was read, and the INI reader's
   * result for its path is given, or reading the item itself failed.
   */
  datatype Item = File(loaded: Result<IniFile, Error>) | Unlisted(error: Error)

  /** A directory: it could not be opened, or it lists these items in this order. */
  datatype Directory = Unopenable(error: Error) | Listed(items: seq<Item>)

  predicate AllListed(items: seq<Item>)
  {
    forall i :: 0 <= i < |items| ==> items[i].File?
  }

  /** The position of the first item that could not be read. */
  function FirstUnlisted(items: seq<Item>): (k: nat)
    requires !AllListed(items)
    ensures k < |items| && items[k].Unlisted? && AllListed(items[..k])
  {
    if items[0].Unlisted? then 0
    else
      var k := FirstUnlisted(items[1..]);
      assert items[..k + 1] == [items[0]] + items[1..][..k];
      k + 1
  }

  /** What one item adds to the directory's records: its record if it is a file that parses. */
  function Contribution(it: Item): seq<Desktop>
  {
    if it.File? && Parse(it.loaded).Ok? then [Parse(it.loaded).value] else []
  }

  /** The records of the items that parse, in listing order. */
  function Parsed(items: seq<Item>): seq<Desktop>
  {
    if items == [] then [] else Contribution(items[0]) + Parsed(items[1..])
  }

  /**
   * What `parse_dir` yields: the directory's error, the error of the first item
   * that could not be read, or the records of the files that parse.
   */
  function ScanDir(dir: Directory): Result<seq<Desktop>, Error>
  {
    match dir
    case Unopenable(e) => Err(e)
    case Listed(items) =>
      if AllListed(items) then Ok(Parsed(items)) else Err(items[FirstUnlisted(items)].error)
  }

  /** Scanning two runs of items one after the other gives the two results one after the other. */
  lemma {:induction false} ParsedAppend(a: seq<Item>, b: seq<Item>)
    ensures Parsed(a + b) == Parsed(a) + Parsed(b)
    decreases |a|
  {
    if a == [] {
      assert a + b == b;
    } else {
      assert (a + b)[1..] == a[1..] + b;
      ParsedAppend(a[1..], b);
    }
  }

  /**
   * A record is among the results exactly when some listed file parses to it:
   * failures are dropped and nothing else is added.
   */
  lemma {:induction false} ParsedMembers(items: seq<Item>, d: Desktop)
    ensures d in Parsed(items) <==>
      exists i :: 0 <= i < |items| && items[i].File? && Parse(items[i].loaded) == Ok(d)
    decreases |items|
  {
    if items != [] {
      ParsedMembers(items[1..], d);
      if d in Parsed(items[1..]) {
        var i :| 0 <= i < |items[1..]| && items[1..][i].File? && Parse(items[1..][i].loaded) == Ok(d);
        assert items[i + 1] == items[1..][i];
      }
      if exists i :: 0 <= i < |items| && items[i].File? && Parse(items[i].loaded) == Ok(d) {
        var i :| 0 <= i < |items| && items[i].File? && Parse(items[i].loaded) == Ok(d);
        if i > 0 {
          assert items[1..][i - 1] == items[i];
        }
      }
    }
  }

  /** There are never more records than items. */
  lemma {:induction false} ParsedBounded(items: seq<Item>)
    ensures |Parsed(items)| <= |items|
    decreases |items|
  {
    if items != [] {
      ParsedBounded(items[1..]);
    }
  }

  /** A directory holding one file that parses and one that does not yields exactly the one record. */
  lemma MalformedFileSkipped(good: IniFile, bad: Result<IniFile, Error>)
    requires DesktopSection in good
    requires bad.Err? || DesktopSection !in bad.value
    ensures ScanDir(Listed([File(Ok(good)), File(bad)])) == Ok([Parse(Ok(good)).value])
    ensures ScanDir(Listed([File(bad), File(Ok(good))])) == Ok([Parse(Ok(good)).value])
  {
    var items1 := [File(Ok(good)), File(bad)];
    var items2 := [File(bad), File(Ok(good))];
    assert AllListed(items1) && AllListed(items2);
    assert Contribution(File(bad)) == [];
    assert items1[1..] == [File(bad)] && items2[1..] == [File(Ok(good))];
    assert Parsed([File(bad)]) == [] by { assert [File(bad)][1..] == []; }
    assert Parsed([File(Ok(good))]) == Contribution(File(Ok(good))) by { assert [File(Ok(good))][1..] == []; }
    assert Parsed(items2) == [] + Parsed([File(Ok(good))]);
    assert Contribution(File(Ok(good))) == [Parse(Ok(good)).value];
    assert Parsed(items2) == [Parse(Ok(good)).value];
    assert ScanDir(Listed(items2)) == Ok(Parsed(items2));
  }

  /** The first unreadable item is the one the loop stops at. */
  lemma FirstUnlistedAt(items: seq<Item>, i: nat)
    requires i < |items| && items[i].Unlisted? && AllListed(items[..i])
    ensures !AllListed(items) && FirstUnlisted(items) == i
  {
  }

  /** One more readable item extends the records by that item's contribution. */
  lemma ParsedSnoc(items: seq<Item>, i: nat)
    requires i < |items| && AllListed(items[..i]) && items[i].File?
    ensures AllListed(items[..i + 1])
    ensures Parsed(items[..i + 1]) == Parsed(items[..i]) + Contribution(items[i])
  {
    assert items[..i + 1] == items[..i] + [items[i]];
    assert Parsed([items[i]]) == Contribution(items[i]) by {
      assert [items[i]][1..] == [];
    }
    ParsedAppend(items[..i], [items[i]]);
  }

  /** `Desktop::parse_dir`: parse every listed file, keep the ones that parse, fail on an unreadable item. */
  method ParseDir(dir: Directory) returns (r: Result<seq<Desktop>, Error>)
    ensures r == ScanDir(dir)
  {
    var items: seq<Item>;
    match dir {
      case Unopenable(e) =>
        return Err(e);
      case Listed(listing) =>
        items := listing;
    }
    var files: seq<Desktop> := [];
    for i := 0 to |items|
      invariant AllListed(items[..i])
      invariant files == Parsed(items[..i])
    {
      match items[i] {
        case Unlisted(e) =>
          FirstUnlistedAt(items, i);
          return Err(e);
        case File(loaded) =>
          var parsed := Parse(loaded);
          if parsed.Ok? {
            files := files + [parsed.value];
          }
      }
      ParsedSnoc(items, i);
    }
    assert items[..|items|] == items;
    return Ok(files);
  }
}
