/**
 * `main`: the launch prefixes read from the environment, field-code stripping,
 * and the dispatch on the number of command-line arguments.
 *
 * Printing and exiting are not performed: the result is an Outcome that holds
 * the lines written to standard output, or the message written to standard
 * error together with the exit status.
 */
module Cli {
  import opened Wrappers
  import opened Replace
  import opened Entries
  import opened Catalog

  /** The values of DOTDESKTOP_TERM and DOTDESKTOP_APP; None when the variable is unset. */
  datatype Env = Env(term: Option<string>, app: Option<string>)

  /** Printed: the run ends normally after writing these lines. Failed: `message` on stderr, then exit with `status`. */
  datatype Outcome = Printed(lines: seq<string>) | Failed(message: string, status: int)

  const Usage := "dot-desktop takes 0 or 1 arguments"

  /** A launch prefix: the variable's value and one space, or nothing when it is unset. */
  function Prefix(v: Option<string>): string
  {
    match v
    case Some(s) => s + " "
    case None => ""
  }

  /** The prefix an entry is launched with: the terminal prefix for terminal entries, the application prefix otherwise. */
  function PrefixFor(d: Desktop, env: Env): string
  {
    if d.term then Prefix(env.term) else Prefix(env.app)
  }

  /** Removes %f, then %F, then %u, then %U, each in one pass of `str::replace`; it never lengthens the command. */
  function StripFieldCodes(exec: string): (r: string)
    ensures |r| <= |exec|
  {
    var s1 := ReplaceAll(exec, "%f", "");
    var s2 := ReplaceAll(s1, "%F", "");
    var s3 := ReplaceAll(s2, "%u", "");
    ReplaceAllShrinks(exec, "%f", "");
    ReplaceAllShrinks(s1, "%F", "");
    ReplaceAllShrinks(s2, "%u", "");
    ReplaceAllShrinks(s3, "%U", "");
    ReplaceAll(s3, "%U", "")
  }

  /** A command without '%' is left exactly as it is. */
  lemma StripFieldCodesPlain(exec: string)
    requires '%' !in exec
    ensures StripFieldCodes(exec) == exec
  {
    ReplaceAllAbsent(exec, "%f", "");
    ReplaceAllAbsent(exec, "%F", "");
    ReplaceAllAbsent(exec, "%u", "");
    ReplaceAllAbsent(exec, "%U", "");
  }

  /** The four field codes, in the order they are stripped. */
  const FieldCodes: seq<string> := ["%f", "%F", "%u", "%U"]

  /** Every piece is one of the four field codes, or nothing. */
  predicate ErasableCodes(codes: seq<string>)
  {
    forall i :: 0 <= i < |codes| ==> codes[i] == "" || codes[i] in FieldCodes
  }

  /** Five texts around the four codes, and the same texts with the codes erased. */
  lemma FieldCodesInterleaved(p0: string, p1: string, p2: string, p3: string, p4: string)
    ensures Interleave([p0, p1, p2, p3, p4], FieldCodes) == p0 + "%f" + p1 + "%F" + p2 + "%u" + p3 + "%U" + p4
    ensures Interleave([p0, p1, p2, p3, p4], ["", "", "", ""]) == p0 + p1 + p2 + p3 + p4
  {
    var texts := [p0, p1, p2, p3, p4];
    assert texts[1..][1..][1..][1..] == [p4];
    assert texts[1..] == [p1, p2, p3, p4];
    assert FieldCodes[1..] == ["%F", "%u", "%U"];
  }

  /**
   * One removal pass over texts without '%' separated by field codes or empty pieces:
   * the pieces equal to the pass's code are erased, the texts and the other pieces stay.
   */
  lemma {:induction false} StripPass(texts: seq<string>, codes: seq<string>, pat: string)
    requires |texts| == |codes| + 1 && pat in FieldCodes
    requires forall i :: 0 <= i < |texts| ==> '%' !in texts[i]
    requires ErasableCodes(codes)
    ensures ReplaceAll(Interleave(texts, codes), pat, "") == Interleave(texts, Substitute(codes, pat, ""))
  {
    forall i | 0 <= i < |codes| ensures codes[i] == [] || (|codes[i]| == |pat| && pat[0] !in codes[i][1..]) {
      if codes[i] != [] {
        assert codes[i][1..] == [codes[i][1]];
      }
    }
    SubstituteAt(codes, pat, "");
    ReplaceAllInterleave(texts, codes, pat, "");
  }

  /** A field code, or nothing, is nothing after the four passes: only its own pass touches it. */
  lemma CodeErased(c: string)
    requires c == "" || c in FieldCodes
    ensures Replaced(Replaced(Replaced(Replaced(c, "%f", ""), "%F", ""), "%u", ""), "%U", "") == ""
  {
    if c != "" {
      assert c[1] in {'f', 'F', 'u', 'U'};
    }
  }

  /** After the four passes no piece is left: each field code is erased by its own pass. */
  lemma {:induction false} FourPassesErase(codes: seq<string>)
    requires ErasableCodes(codes)
    ensures Substitute(Substitute(Substitute(Substitute(codes, "%f", ""), "%F", ""), "%u", ""), "%U", "")
      == seq(|codes|, i => "")
  {
    var c1 := Substitute(codes, "%f", "");
    var c2 := Substitute(c1, "%F", "");
    var c3 := Substitute(c2, "%u", "");
    var c4 := Substitute(c3, "%U", "");
    SubstituteAt(codes, "%f", "");
    SubstituteAt(c1, "%F", "");
    SubstituteAt(c2, "%u", "");
    SubstituteAt(c3, "%U", "");
    forall i | 0 <= i < |codes| ensures c4[i] == "" {
      assert c1[i] == Replaced(codes[i], "%f", "") && c2[i] == Replaced(c1[i], "%F", "");
      assert c3[i] == Replaced(c2[i], "%u", "") && c4[i] == Replaced(c3[i], "%U", "");
      CodeErased(codes[i]);
    }
  }

  /** Erasing field codes keeps every remaining piece a field code or nothing. */
  lemma {:induction false} SubstituteKeepsErasable(codes: seq<string>, pat: string)
    requires ErasableCodes(codes)
    ensures ErasableCodes(Substitute(codes, pat, ""))
  {
    SubstituteAt(codes, pat, "");
  }

  /**
   * Any number of field codes, repeated and in any order, between texts without '%':
   * every code goes and every text stays.
   */
  lemma {:induction false} StripFieldCodesInterleaved(texts: seq<string>, codes: seq<string>)
    requires |texts| == |codes| + 1
    requires forall i :: 0 <= i < |texts| ==> '%' !in texts[i]
    requires ErasableCodes(codes)
    ensures StripFieldCodes(Interleave(texts, codes)) == Interleave(texts, seq(|codes|, i => ""))
  {
    var c1 := Substitute(codes, "%f", "");
    var c2 := Substitute(c1, "%F", "");
    var c3 := Substitute(c2, "%u", "");
    SubstituteKeepsErasable(codes, "%f");
    SubstituteKeepsErasable(c1, "%F");
    SubstituteKeepsErasable(c2, "%u");
    FourPassesErase(codes);
    calc {
      StripFieldCodes(Interleave(texts, codes));
      ReplaceAll(ReplaceAll(ReplaceAll(ReplaceAll(Interleave(texts, codes), "%f", ""), "%F", ""), "%u", ""), "%U", "");
      { StripPass(texts, codes, "%f"); }
      ReplaceAll(ReplaceAll(ReplaceAll(Interleave(texts, c1), "%F", ""), "%u", ""), "%U", "");
      { StripPass(texts, c1, "%F"); }
      ReplaceAll(ReplaceAll(Interleave(texts, c2), "%u", ""), "%U", "");
      { StripPass(texts, c2, "%u"); }
      ReplaceAll(Interleave(texts, c3), "%U", "");
      { StripPass(texts, c3, "%U"); }
      Interleave(texts, Substitute(c3, "%U", ""));
    }
  }

  /** One code of each kind, in the order they are stripped, between texts without '%': the codes go and the texts stay. */
  lemma StripFieldCodesBetweenText(p0: string, p1: string, p2: string, p3: string, p4: string)
    requires '%' !in p0 && '%' !in p1 && '%' !in p2 && '%' !in p3 && '%' !in p4
    ensures StripFieldCodes(p0 + "%f" + p1 + "%F" + p2 + "%u" + p3 + "%U" + p4) == p0 + p1 + p2 + p3 + p4
  {
    FieldCodesInterleaved(p0, p1, p2, p3, p4);
    StripFieldCodesInterleaved([p0, p1, p2, p3, p4], FieldCodes);
    assert seq(4, i => "") == ["", "", "", ""];
  }

  /** A single field code between texts without '%', the usual shape of an Exec value, is removed. */
  lemma StripFieldCodesSingle(p: string, c: string, q: string)
    requires '%' !in p && '%' !in q && c in FieldCodes
    ensures StripFieldCodes(p + c + q) == p + q
  {
    assert Interleave([p, q], [c]) == p + c + q;
    StripFieldCodesInterleaved([p, q], [c]);
    assert seq(1, i => "") == [""];
    assert Interleave([p, q], [""]) == p + q;
  }

  /** A browser's command: its trailing URL code is removed and the space before it stays. */
  lemma StripFieldCodesTrailingUrl()
    ensures StripFieldCodes("firefox %u") == "firefox "
  {
    StripFieldCodesSingle("firefox ", "%u", "");
    assert "firefox " + "%u" + "" == "firefox %u";
  }

  /** A command with each field code once: each code is removed where it stands and the spaces around it are kept. */
  lemma StripFieldCodesExample()
    ensures StripFieldCodes("run %f %F extra %u %U") == "run   extra  "
  {
    ExampleLayout();
    StripFieldCodesBetweenText("run ", " ", " extra ", " ", "");
  }

  /** That command and its stripped form, cut at the field codes. */
  lemma ExampleLayout()
    ensures "run " + "%f" + " " + "%F" + " extra " + "%u" + " " + "%U" + "" == "run %f %F extra %u %U"
    ensures "run " + " " + " extra " + " " + "" == "run   extra  "
  {
  }

  /** The passes do not rescan their output, so a removal can bring a new field code together. */
  lemma StripFieldCodesDoesNotRescan()
    ensures StripFieldCodes("%%ff") == "%f"
  {
    assert ReplaceAll("%%ff", "%f", "") == "%f";
    assert ReplaceAll("%f", "%F", "") == "%f";
    assert ReplaceAll("%f", "%u", "") == "%f";
    assert ReplaceAll("%f", "%U", "") == "%f";
  }

  /** The line printed for an entry: its prefix followed by its stripped command. */
  function LaunchLine(d: Desktop, env: Env): string
  {
    PrefixFor(d, env) + StripFieldCodes(d.exec)
  }

  /**
   * The terminal prefix is used exactly for terminal entries and the application prefix
   * for the others: the variable that is not selected has no influence on the line.
   */
  lemma LaunchLineSelectsPrefix(d: Desktop, env: Env, other: Option<string>)
    ensures d.term ==> LaunchLine(d, env) == LaunchLine(d, env.(app := other))
    ensures !d.term ==> LaunchLine(d, env) == LaunchLine(d, env.(term := other))
    ensures d.term && env.term.None? ==> LaunchLine(d, env) == StripFieldCodes(d.exec)
    ensures !d.term && env.app.None? ==> LaunchLine(d, env) == StripFieldCodes(d.exec)
  {
  }

  /** A command without '%' is printed as it is, after the prefix and its one space. */
  lemma LaunchLinePlainCommand(d: Desktop, env: Env)
    requires '%' !in d.exec
    ensures d.term && env.term.Some? ==> LaunchLine(d, env) == env.term.value + " " + d.exec
    ensures !d.term && env.app.Some? ==> LaunchLine(d, env) == env.app.value + " " + d.exec
  {
    StripFieldCodesPlain(d.exec);
  }

  /** The position of the first entry named `name`, if any. */
  function FirstMatch(entries: seq<Desktop>, name: string): (k: Option<nat>)
    ensures k.Some? ==>
      k.value < |entries| && entries[k.value].name == name
      && forall j :: 0 <= j < k.value ==> entries[j].name != name
    ensures k.None? ==> forall j :: 0 <= j < |entries| ==> entries[j].name != name
  {
    if entries == [] then None
    else if entries[0].name == name then Some(0)
    else
      match FirstMatch(entries[1..], name)
      case None => None
      case Some(k) => Some(k + 1)
  }

  /** The names of the entries, in order. */
  function Names(entries: seq<Desktop>): seq<string>
  {
    seq(|entries|, i requires 0 <= i < |entries| => entries[i].name)
  }

  /**
   * What a run prints for `args` (the program name first) over the entry list:
   * every name for no argument, the launch line of the first entry with the given
   * name (or nothing) for one argument, the usage error with status 1 otherwise.
   */
  function Dispatch(args: seq<string>, entries: seq<Desktop>, env: Env): (o: Outcome)
    ensures o.Failed? <==> |args| != 1 && |args| != 2
    ensures o.Failed? ==> o == Failed(Usage, 1)
    ensures |args| == 1 ==>
      |o.lines| == |entries| && forall i :: 0 <= i < |entries| ==> o.lines[i] == entries[i].name
    ensures |args| == 2 ==> |o.lines| <= 1
    ensures |args| == 2 ==>
      (o.lines == [] <==> forall j :: 0 <= j < |entries| ==> entries[j].name != args[1])
    ensures |args| == 2 && o.lines != [] ==>
      exists k :: 0 <= k < |entries| && entries[k].name == args[1]
        && (forall j :: 0 <= j < k ==> entries[j].name != args[1])
        && o.lines == [LaunchLine(entries[k], env)]
  {
    if |args| == 1 then
      Printed(Names(entries))
    else if |args| == 2 then
      match FirstMatch(entries, args[1])
      case None => Printed([])
      case Some(k) => Printed([LaunchLine(entries[k], env)])
    else
      Failed(Usage, 1)
  }

  /** Appending entries after a match does not move the first match. */
  lemma FirstMatchAppend(a: seq<Desktop>, b: seq<Desktop>, name: string)
    requires exists i :: 0 <= i < |a| && a[i].name == name
    ensures FirstMatch(a + b, name) == FirstMatch(a, name)
  {
    var k := FirstMatch(a, name);
    assert (a + b)[k.value] == a[k.value];
    assert forall j :: 0 <= j < k.value ==> (a + b)[j] == a[j];
  }

  /** Entries after the first match cannot change what a one-argument run prints. */
  lemma LaterEntriesIgnored(args: seq<string>, a: seq<Desktop>, b: seq<Desktop>, env: Env)
    requires |args| == 2
    requires exists i :: 0 <= i < |a| && a[i].name == args[1]
    ensures Dispatch(args, a + b, env) == Dispatch(args, a, env)
  {
    FirstMatchAppend(a, b, args[1]);
    var k := FirstMatch(a, args[1]).value;
    assert (a + b)[k] == a[k];
  }

  /** The zero-argument branch of `main`: every entry's name, in order. */
  method ListNames(entries: seq<Desktop>) returns (lines: seq<string>)
    ensures lines == Names(entries)
  {
    lines := [];
    for i := 0 to |entries|
      invariant |lines| == i && forall j :: 0 <= j < i ==> lines[j] == entries[j].name
    {
      lines := lines + [entries[i].name];
    }
  }

  /** The one-argument branch of `main`: the launch line of the first entry named `name`, if any. */
  method Launch(entries: seq<Desktop>, name: string, env: Env) returns (lines: seq<string>)
    ensures lines == match FirstMatch(entries, name)
      case None => []
      case Some(k) => [LaunchLine(entries[k], env)]
  {
    for i := 0 to |entries|
      invariant forall j :: 0 <= j < i ==> entries[j].name != name
    {
      if entries[i].name == name {
        return [LaunchLine(entries[i], env)];
      }
    }
    return [];
  }

  /** The argument dispatch of `main` over an entry list that is already built. */
  method Run(args: seq<string>, entries: seq<Desktop>, env: Env) returns (o: Outcome)
    ensures o == Dispatch(args, entries, env)
  {
    match |args| {
      case 1 =>
        var lines := ListNames(entries);
        o := Printed(lines);
      case 2 =>
        var lines := Launch(entries, args[1], env);
        o := Printed(lines);
      case _ =>
        o := Failed(Usage, 1);
    }
  }

  /**
   * One whole run of the program: `home` is HOME, `fs` what each directory
   * holds, `args` the command line with the program name first.
   */
  method Invoke(args: seq<string>, home: string, env: Env, fs: string -> Directory) returns (o: Outcome)
    ensures o == Dispatch(args, DesktopEntries(home, fs), env)
  {
    var entries := CollectEntries(home, fs);
    o := Run(args, entries, env);
  }
}
