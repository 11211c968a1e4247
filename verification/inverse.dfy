/**
  Undoing a replacement: scan the output left to right and put `orig` back
  wherever the inserted text `pat` starts. When `pat` starts with a
  character the input never contains, this inverts every rule whose hits
  turn a fixed prefix `orig` into `pat` and copy the rest of the match.
 */
module Inverse {
  import opened Patterns
  import opened Replace

  function Unreplace(pat: string, orig: string, t: string): string
    decreases |t|
  {
    if |t| == 0 then []
    else if |pat| > 0 && |pat| <= |t| && t[..|pat|] == pat then orig + Unreplace(pat, orig, t[|pat|..])
    else [t[0]] + Unreplace(pat, orig, t[1..])
  }

  /** t never contains the character c. */
  predicate Lacks(t: string, c: char) {
    forall j :: 0 <= j < |t| ==> t[j] != c
  }

  /** Text without the first character of `pat` passes through. */
  lemma {:induction false} UnreplacePlain(pat: string, orig: string, a: string, b: string)
    requires |pat| > 0 && Lacks(a, pat[0])
    ensures Unreplace(pat, orig, a + b) == a + Unreplace(pat, orig, b)
    decreases |a|
  {
    if |a| > 0 {
      var t := a + b;
      assert t[0] == a[0] != pat[0];
      assert !(|pat| <= |t| && t[..|pat|] == pat);
      assert t[1..] == a[1..] + b;
      UnreplacePlain(pat, orig, a[1..], b);
    } else {
      assert a + b == b;
    }
  }

  /** An occurrence of `pat` is put back to `orig`. */
  lemma UnreplaceHead(pat: string, orig: string, rest: string)
    requires |pat| > 0
    ensures Unreplace(pat, orig, pat + rest) == orig + Unreplace(pat, orig, rest)
  {
    var t := pat + rest;
    assert t[..|pat|] == pat && t[|pat|..] == rest;
  }

  /** Every hit of m in s turns the text `orig` at its start into `pat`
      and copies the rest of the match. */
  predicate HitsSwap(m: Matcher, pat: string, orig: string, s: string) {
    forall p :: 0 <= p < |s| && Proper(m, s, p) ==>
      && p + |orig| <= m(s, p).value.end
      && s[p..p + |orig|] == orig
      && m(s, p).value.out == pat + s[p + |orig|..m(s, p).value.end]
  }

  /** `pat`, copied text, then more: `orig` comes back before the copy. */
  lemma UnreplaceSwap(pat: string, orig: string, x: string, rest: string)
    requires |pat| > 0 && Lacks(x, pat[0])
    ensures Unreplace(pat, orig, pat + x + rest) == orig + x + Unreplace(pat, orig, rest)
  {
    assert pat + x + rest == pat + (x + rest);
    UnreplaceHead(pat, orig, x + rest);
    UnreplacePlain(pat, orig, x, rest);
  }

  /** The scan step at a hit, given the claim after it. */
  lemma SwapHitStep(m: Matcher, pat: string, orig: string, s: string, i: nat)
    requires |pat| > 0 && Lacks(s, pat[0])
    requires i < |s| && Proper(m, s, i) && HitsSwap(m, pat, orig, s)
    requires var e := m(s, i).value.end;
             Unreplace(pat, orig, ScanWith(m, s, e)) == s[e..]
    ensures Unreplace(pat, orig, ScanWith(m, s, i)) == s[i..]
  {
    var e := m(s, i).value.end;
    var k := i + |orig|;
    assert k <= e && s[i..k] == orig && m(s, i).value.out == pat + s[k..e];
    ScanHit(m, s, i);
    UnreplaceSwap(pat, orig, s[k..e], ScanWith(m, s, e));
    SliceSplit(s, i, k, e);
  }

  /** The scan step where a character is copied, given the claim after it. */
  lemma SwapMissStep(m: Matcher, pat: string, orig: string, s: string, i: nat)
    requires |pat| > 0 && Lacks(s, pat[0])
    requires i < |s| && !Proper(m, s, i)
    requires Unreplace(pat, orig, ScanWith(m, s, i + 1)) == s[i + 1..]
    ensures Unreplace(pat, orig, ScanWith(m, s, i)) == s[i..]
  {
    ScanMiss(m, s, i);
    UnreplacePlain(pat, orig, [s[i]], ScanWith(m, s, i + 1));
    assert s[i..] == [s[i]] + s[i + 1..];
  }

  lemma {:induction false} ScanUnreplaced(m: Matcher, pat: string, orig: string, s: string, i: nat)
    requires |pat| > 0 && Lacks(s, pat[0])
    requires i <= |s| && HitsSwap(m, pat, orig, s)
    ensures Unreplace(pat, orig, ScanWith(m, s, i)) == s[i..]
    decreases |s| - i
  {
    if i < |s| {
      if Proper(m, s, i) {
        ScanUnreplaced(m, pat, orig, s, m(s, i).value.end);
        SwapHitStep(m, pat, orig, s, i);
      } else {
        ScanUnreplaced(m, pat, orig, s, i + 1);
        SwapMissStep(m, pat, orig, s, i);
      }
    }
  }

  /** A character found neither in s nor in any replacement is not in the output. */
  lemma {:induction false} ScanLacks(m: Matcher, s: string, c: char, i: nat)
    requires i <= |s| && Lacks(s, c)
    requires forall p :: 0 <= p < |s| && Proper(m, s, p) ==> Lacks(m(s, p).value.out, c)
    ensures Lacks(ScanWith(m, s, i), c)
    decreases |s| - i
  {
    if i < |s| {
      if Proper(m, s, i) {
        ScanLacks(m, s, c, m(s, i).value.end);
        ScanHit(m, s, i);
      } else {
        ScanLacks(m, s, c, i + 1);
        ScanMiss(m, s, i);
      }
    }
  }

  /** Putting `orig` back undoes a scan whose hits swap `orig` for `pat`,
      on a text without `pat`'s first character. */
  lemma UnreplaceRestores(m: Matcher, pat: string, orig: string, s: string)
    requires |pat| > 0 && Lacks(s, pat[0])
    requires HitsSwap(m, pat, orig, s)
    ensures Unreplace(pat, orig, ScanWith(m, s, 0)) == s
  {
    ScanUnreplaced(m, pat, orig, s, 0);
  }
}
