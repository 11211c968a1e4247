/**
  Projections of a text: each character is shown as some string (often
  itself or nothing). A rule whose every match looks the same as its
  replacement under a projection leaves the projected text unchanged.
 */
module Views {
  import opened Patterns
  import opened Replace

  function Project(shown: char -> string, t: string): string
    decreases |t|
  {
    if |t| == 0 then [] else shown(t[0]) + Project(shown, t[1..])
  }

  lemma {:induction false} ProjectAppend(shown: char -> string, a: string, b: string)
    ensures Project(shown, a + b) == Project(shown, a) + Project(shown, b)
    decreases |a|
  {
    if |a| == 0 {
      assert a + b == b;
    } else {
      assert (a + b)[0] == a[0];
      assert (a + b)[1..] == a[1..] + b;
      ProjectAppend(shown, a[1..], b);
    }
  }

  lemma ProjectOne(shown: char -> string, c: char)
    ensures Project(shown, [c]) == shown(c)
  {
    assert [c][1..] == [];
  }

  /** Every hit of m in s projects like its replacement. */
  predicate HitsKeep(m: Matcher, shown: char -> string, s: string) {
    forall p :: 0 <= p < |s| && Proper(m, s, p) ==>
      Project(shown, m(s, p).value.out) == Project(shown, s[p..m(s, p).value.end])
  }

  lemma {:induction false} ScanKeepsProjection(m: Matcher, shown: char -> string, s: string, i: nat)
    requires i <= |s|
    requires HitsKeep(m, shown, s)
    ensures Project(shown, ScanWith(m, s, i)) == Project(shown, s[i..])
    decreases |s| - i
  {
    if i < |s| {
      if Proper(m, s, i) {
        var h := m(s, i).value;
        ScanKeepsProjection(m, shown, s, h.end);
        ProjectAppend(shown, h.out, ScanWith(m, s, h.end));
        assert s[i..] == s[i..h.end] + s[h.end..];
        ProjectAppend(shown, s[i..h.end], s[h.end..]);
      } else {
        ScanKeepsProjection(m, shown, s, i + 1);
        ProjectAppend(shown, [s[i]], ScanWith(m, s, i + 1));
        assert s[i..] == [s[i]] + s[i + 1..];
        ProjectAppend(shown, [s[i]], s[i + 1..]);
      }
    }
  }

  /** A matcher all of whose hits keep the projection keeps it overall. */
  lemma ScanKeepsProjectionAll(m: Matcher, shown: char -> string, s: string)
    requires HitsKeep(m, shown, s)
    ensures Project(shown, ScanWith(m, s, 0)) == Project(shown, s)
  {
    ScanKeepsProjection(m, shown, s, 0);
    assert s[0..] == s;
  }
}
