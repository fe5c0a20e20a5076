/**
 * Rust's `str::replace(pat, rep)`: one left-to-right pass over the string that
 * replaces each non-overlapping occurrence of `pat` by `rep` and never looks at
 * the text it has produced again.
 */
module Replace {

  /** The single replacing pass; `pat` is never empty at any call site of the program. */
  function ReplaceAll(s: string, pat: string, rep: string): string
    requires pat != []
    decreases |s|
  {
    if |s| < |pat| then s
    else if s[..|pat|] == pat then rep + ReplaceAll(s[|pat|..], pat, rep)
    else [s[0]] + ReplaceAll(s[1..], pat, rep)
  }

  /** A string in which the first character of the pattern never occurs is left unchanged. */
  lemma {:induction false} ReplaceAllAbsent(s: string, pat: string, rep: string)
    requires pat != [] && pat[0] !in s
    ensures ReplaceAll(s, pat, rep) == s
    decreases |s|
  {
    if |s| >= |pat| {
      assert s[..|pat|][0] == s[0];
      assert s[0] in s;
      assert forall c :: c in s[1..] ==> c in s;
      ReplaceAllAbsent(s[1..], pat, rep);
    }
  }

  /** A replacement no longer than the pattern never makes the string longer. */
  lemma {:induction false} ReplaceAllShrinks(s: string, pat: string, rep: string)
    requires pat != [] && |rep| <= |pat|
    ensures |ReplaceAll(s, pat, rep)| <= |s|
    decreases |s|
  {
    if |s| >= |pat| {
      if s[..|pat|] == pat {
        ReplaceAllShrinks(s[|pat|..], pat, rep);
      } else {
        ReplaceAllShrinks(s[1..], pat, rep);
      }
    }
  }

  /** Text that cannot start an occurrence is copied through, and the pass resumes right after it. */
  lemma {:induction false} ReplaceAllPlainPrefix(a: string, b: string, pat: string, rep: string)
    requires pat != [] && pat[0] !in a
    ensures ReplaceAll(a + b, pat, rep) == a + ReplaceAll(b, pat, rep)
    decreases |a|
  {
    if a == [] {
      assert a + b == b;
    } else {
      var s := a + b;
      assert s[0] == a[0] && a[0] in a;
      if |s| < |pat| {
        assert ReplaceAll(s, pat, rep) == s;
        assert ReplaceAll(b, pat, rep) == b;
      } else {
        assert s[..|pat|][0] == a[0];
        assert s[..|pat|] != pat;
        assert ReplaceAll(s, pat, rep) == [a[0]] + ReplaceAll(s[1..], pat, rep);
        assert s[1..] == a[1..] + b;
        assert forall c :: c in a[1..] ==> c in a;
        ReplaceAllPlainPrefix(a[1..], b, pat, rep);
        assert [a[0]] + (a[1..] + ReplaceAll(b, pat, rep)) == ([a[0]] + a[1..]) + ReplaceAll(b, pat, rep);
        assert [a[0]] + a[1..] == a;
      }
    }
  }

  /** An occurrence at the front is replaced and the pass resumes right after it. */
  lemma ReplaceAllAtOccurrence(b: string, pat: string, rep: string)
    requires pat != []
    ensures ReplaceAll(pat + b, pat, rep) == rep + ReplaceAll(b, pat, rep)
  {
    var s := pat + b;
    assert s[..|pat|] == pat;
    assert s[|pat|..] == b;
  }

  /** True when `pat` occurs in `s` starting at position `i`. */
  predicate OccursAt(s: string, pat: string, i: nat)
  {
    i + |pat| <= |s| && s[i..i + |pat|] == pat
  }

  /** True when `pat` occurs nowhere in `s`. */
  predicate Free(s: string, pat: string)
  {
    forall i: nat :: i <= |s| ==> !OccursAt(s, pat, i)
  }

  /** A string in which the pattern does not occur is left unchanged. */
  lemma {:induction false} ReplaceAllFree(s: string, pat: string, rep: string)
    requires pat != [] && Free(s, pat)
    ensures ReplaceAll(s, pat, rep) == s
    decreases |s|
  {
    if |s| >= |pat| {
      assert !OccursAt(s, pat, 0);
      assert s[0..|pat|] == s[..|pat|];
      forall i: nat | i <= |s[1..]|
        ensures !OccursAt(s[1..], pat, i)
      {
        assert !OccursAt(s, pat, i + 1);
        if i + |pat| <= |s[1..]| {
          assert s[1..][i..i + |pat|] == s[i + 1..i + 1 + |pat|];
        }
      }
      ReplaceAllFree(s[1..], pat, rep);
    }
  }

  /** A piece as long as the pattern, other than the pattern, that cannot start an occurrence after its first character is copied through. */
  lemma ReplaceAllNearMiss(x: string, b: string, pat: string, rep: string)
    requires pat != [] && |x| == |pat| && x != pat && pat[0] !in x[1..]
    ensures ReplaceAll(x + b, pat, rep) == x + ReplaceAll(b, pat, rep)
  {
    var s := x + b;
    calc {
      ReplaceAll(s, pat, rep);
      { assert |s| >= |pat| && s[..|pat|] == x && x != pat; }
      [s[0]] + ReplaceAll(s[1..], pat, rep);
      { assert s[0] == x[0] && s[1..] == x[1..] + b; }
      [x[0]] + ReplaceAll(x[1..] + b, pat, rep);
      { ReplaceAllPlainPrefix(x[1..], b, pat, rep); }
      [x[0]] + (x[1..] + ReplaceAll(b, pat, rep));
      { assert [x[0]] + x[1..] == x; }
      x + ReplaceAll(b, pat, rep);
    }
  }

  /** texts[0] + codes[0] + texts[1] + ... + codes[n-1] + texts[n]. */
  function Interleave(texts: seq<string>, codes: seq<string>): string
    requires |texts| == |codes| + 1
    decreases |codes|
  {
    if codes == [] then texts[0] else texts[0] + codes[0] + Interleave(texts[1..], codes[1..])
  }

  /** What a pass makes of one piece: `rep` if the piece is the pattern, the piece itself otherwise. */
  function Replaced(c: string, pat: string, rep: string): string
  {
    if c == pat then rep else c
  }

  /** The codes with every one equal to `pat` replaced by `rep`. */
  function Substitute(codes: seq<string>, pat: string, rep: string): (r: seq<string>)
    ensures |r| == |codes|
  {
    if codes == [] then [] else [Replaced(codes[0], pat, rep)] + Substitute(codes[1..], pat, rep)
  }

  /** Each code is replaced exactly when it equals the pattern; every other code stays where it is. */
  lemma {:induction false} SubstituteAt(codes: seq<string>, pat: string, rep: string)
    ensures forall i :: 0 <= i < |codes| ==>
      Substitute(codes, pat, rep)[i] == Replaced(codes[i], pat, rep)
    decreases |codes|
  {
    if codes != [] {
      SubstituteAt(codes[1..], pat, rep);
      var r := Substitute(codes, pat, rep);
      assert forall i :: 1 <= i < |codes| ==> r[i] == Substitute(codes[1..], pat, rep)[i - 1];
    }
  }

  /** No text holds the first character of the pattern. */
  predicate PlainTexts(texts: seq<string>, pat: string)
    requires pat != []
  {
    forall i :: 0 <= i < |texts| ==> pat[0] !in texts[i]
  }

  /**
   * Each code is empty, or as long as the pattern without its first character
   * after the first position, so that no occurrence can straddle a code.
   */
  predicate AlignedCodes(codes: seq<string>, pat: string)
    requires pat != []
  {
    forall i :: 0 <= i < |codes| ==> codes[i] == [] || (|codes[i]| == |pat| && pat[0] !in codes[i][1..])
  }

  /** A code that cannot straddle an occurrence is replaced if it is the pattern and copied if not; the pass resumes after it. */
  lemma ReplaceAllCode(c: string, b: string, pat: string, rep: string)
    requires pat != [] && (c == [] || (|c| == |pat| && pat[0] !in c[1..]))
    ensures ReplaceAll(c + b, pat, rep) == Replaced(c, pat, rep) + ReplaceAll(b, pat, rep)
  {
    if c == [] {
      assert c + b == b;
    } else if c == pat {
      ReplaceAllAtOccurrence(b, pat, rep);
    } else {
      ReplaceAllNearMiss(c, b, pat, rep);
    }
  }

  /** Dropping the first text and the first code keeps both conditions. */
  lemma InterleaveTails(texts: seq<string>, codes: seq<string>, pat: string)
    requires pat != [] && texts != [] && codes != []
    requires PlainTexts(texts, pat) && AlignedCodes(codes, pat)
    ensures PlainTexts(texts[1..], pat) && AlignedCodes(codes[1..], pat)
  {
    forall i | 0 <= i < |texts[1..]| ensures pat[0] !in texts[1..][i] {
      assert texts[1..][i] == texts[i + 1];
    }
    forall i | 0 <= i < |codes[1..]|
      ensures codes[1..][i] == [] || (|codes[1..][i]| == |pat| && pat[0] !in codes[1..][i][1..])
    {
      assert codes[1..][i] == codes[i + 1];
    }
  }

  /**
   * Over text interleaved with codes, where only codes can hold the pattern's first
   * character, the pass replaces exactly the codes equal to the pattern and keeps
   * everything else in place.
   */
  lemma {:induction false} ReplaceAllInterleave(texts: seq<string>, codes: seq<string>, pat: string, rep: string)
    requires pat != [] && |texts| == |codes| + 1
    requires PlainTexts(texts, pat) && AlignedCodes(codes, pat)
    ensures ReplaceAll(Interleave(texts, codes), pat, rep) == Interleave(texts, Substitute(codes, pat, rep))
    decreases |codes|
  {
    if codes == [] {
      assert pat[0] !in texts[0];
      ReplaceAllAbsent(texts[0], pat, rep);
    } else {
      InterleaveTails(texts, codes, pat);
      ReplaceAllInterleave(texts[1..], codes[1..], pat, rep);
      ReplaceAllInterleaveStep(texts, codes, pat, rep);
    }
  }

  /** The inductive step: if the pass does its job on the tail, it does it on the whole. */
  lemma ReplaceAllInterleaveStep(texts: seq<string>, codes: seq<string>, pat: string, rep: string)
    requires pat != [] && |texts| == |codes| + 1 && codes != []
    requires pat[0] !in texts[0]
    requires codes[0] == [] || (|codes[0]| == |pat| && pat[0] !in codes[0][1..])
    requires ReplaceAll(Interleave(texts[1..], codes[1..]), pat, rep)
          == Interleave(texts[1..], Substitute(codes[1..], pat, rep))
    ensures ReplaceAll(Interleave(texts, codes), pat, rep) == Interleave(texts, Substitute(codes, pat, rep))
  {
    var t, c := texts[0], codes[0];
    var rest := Interleave(texts[1..], codes[1..]);
    var c' := Replaced(c, pat, rep);
    calc {
      ReplaceAll(Interleave(texts, codes), pat, rep);
      { assert Interleave(texts, codes) == t + (c + rest); }
      ReplaceAll(t + (c + rest), pat, rep);
      { ReplaceAllPlainPrefix(t, c + rest, pat, rep); }
      t + ReplaceAll(c + rest, pat, rep);
      { ReplaceAllCode(c, rest, pat, rep); }
      t + (c' + ReplaceAll(rest, pat, rep));
      { InterleaveHead(texts, codes, pat, rep); }
      Interleave(texts, Substitute(codes, pat, rep));
    }
  }

  /** The first text and the first code, substituted, lead the substituted interleaving. */
  lemma InterleaveHead(texts: seq<string>, codes: seq<string>, pat: string, rep: string)
    requires |texts| == |codes| + 1 && codes != []
    ensures Interleave(texts, Substitute(codes, pat, rep))
         == texts[0] + (Replaced(codes[0], pat, rep) + Interleave(texts[1..], Substitute(codes[1..], pat, rep)))
  {
    var sub := Substitute(codes, pat, rep);
    assert sub[1..] == Substitute(codes[1..], pat, rep);
  }
}
