/**
  Rules that keep the length of the text: every hit is replaced by a text
  of its own length. Either each output character is given by a function
  of the input and its position, or each is related to the input character
  at the same place.
 */
module Pointwise {
  import opened Replace

  /** At p, a hit of m writes, position by position, what f gives for the
      text; without a hit, f keeps the character. */
  predicate FollowsAt(m: Matcher, f: (string, nat) -> char, s: string, p: nat)
    requires p < |s|
  {
    if Proper(m, s, p) then
      && |m(s, p).value.out| == m(s, p).value.end - p
      && forall j :: 0 <= j < |m(s, p).value.out| ==> m(s, p).value.out[j] == f(s, p + j)
    else
      f(s, p) == s[p]
  }

  predicate HitsFollow(m: Matcher, f: (string, nat) -> char, s: string) {
    forall p :: 0 <= p < |s| ==> FollowsAt(m, f, s, p)
  }

  /** The scan from i on writes f at every position. */
  predicate WritesFrom(m: Matcher, f: (string, nat) -> char, s: string, i: nat)
    requires i <= |s|
  {
    |ScanWith(m, s, i)| == |s| - i && forall k :: i <= k < |s| ==> ScanWith(m, s, i)[k - i] == f(s, k)
  }

  lemma FollowHitStep(m: Matcher, f: (string, nat) -> char, s: string, i: nat)
    requires i < |s| && Proper(m, s, i) && HitsFollow(m, f, s)
    requires WritesFrom(m, f, s, m(s, i).value.end)
    ensures WritesFrom(m, f, s, i)
  {
    var h := m(s, i).value;
    assert FollowsAt(m, f, s, i);
    assert |h.out| == h.end - i && forall j :: 0 <= j < |h.out| ==> h.out[j] == f(s, i + j);
    ScanHit(m, s, i);
    var t := ScanWith(m, s, i);
    var rest := ScanWith(m, s, h.end);
    assert t == h.out + rest;
    forall k | i <= k < |s|
      ensures t[k - i] == f(s, k)
    {
      if k < h.end {
        assert t[k - i] == h.out[k - i];
      } else {
        assert t[k - i] == rest[k - h.end];
      }
    }
  }

  lemma FollowMissStep(m: Matcher, f: (string, nat) -> char, s: string, i: nat)
    requires i < |s| && !Proper(m, s, i) && HitsFollow(m, f, s)
    requires WritesFrom(m, f, s, i + 1)
    ensures WritesFrom(m, f, s, i)
  {
    assert FollowsAt(m, f, s, i);
    assert f(s, i) == s[i];
    ScanMiss(m, s, i);
    var t := ScanWith(m, s, i);
    var rest := ScanWith(m, s, i + 1);
    assert t == [s[i]] + rest;
    forall k | i <= k < |s|
      ensures t[k - i] == f(s, k)
    {
      if k > i {
        assert t[k - i] == rest[k - (i + 1)];
      }
    }
  }

  /** The output of a scan whose hits follow f is f at every position. */
  lemma {:induction false} ScanFollows(m: Matcher, f: (string, nat) -> char, s: string, i: nat)
    requires i <= |s| && HitsFollow(m, f, s)
    ensures WritesFrom(m, f, s, i)
    decreases |s| - i
  {
    if i < |s| {
      if Proper(m, s, i) {
        ScanFollows(m, f, s, m(s, i).value.end);
        FollowHitStep(m, f, s, i);
      } else {
        ScanFollows(m, f, s, i + 1);
        FollowMissStep(m, f, s, i);
      }
    }
  }

  /** Same length, and each character of b stands in relation R to the one
      of a at the same place. */
  predicate Related(r: (char, char) -> bool, a: string, b: string) {
    |a| == |b| && forall k :: 0 <= k < |a| ==> r(a[k], b[k])
  }

  /** Every hit of m is replaced by a text of its own length, related
      character by character to the match. */
  predicate HitsRelate(m: Matcher, r: (char, char) -> bool, s: string) {
    forall p :: 0 <= p < |s| && Proper(m, s, p) ==>
      && |m(s, p).value.out| == m(s, p).value.end - p
      && forall j :: 0 <= j < |m(s, p).value.out| ==> r(s[p + j], m(s, p).value.out[j])
  }

  lemma {:induction false} ScanRelates(m: Matcher, r: (char, char) -> bool, s: string, i: nat)
    requires i <= |s| && HitsRelate(m, r, s)
    requires forall c :: r(c, c)
    ensures Related(r, s[i..], ScanWith(m, s, i))
    decreases |s| - i
  {
    if i < |s| {
      var t := ScanWith(m, s, i);
      if Proper(m, s, i) {
        var h := m(s, i).value;
        ScanRelates(m, r, s, h.end);
        ScanHit(m, s, i);
        forall k | 0 <= k < |s| - i
          ensures r(s[i..][k], t[k])
        {
          if k < h.end - i {
            assert t[k] == h.out[k];
          } else {
            assert t[k] == ScanWith(m, s, h.end)[k - (h.end - i)];
            assert s[i..][k] == s[h.end..][k - (h.end - i)];
          }
        }
      } else {
        ScanRelates(m, r, s, i + 1);
        ScanMiss(m, s, i);
        forall k | 0 <= k < |s| - i
          ensures r(s[i..][k], t[k])
        {
          if k > 0 {
            assert t[k] == ScanWith(m, s, i + 1)[k - 1];
            assert s[i..][k] == s[i + 1..][k - 1];
          }
        }
      }
    }
  }

  /** A length-keeping scan relates the output to the whole input. */
  lemma ScanRelatesAll(m: Matcher, r: (char, char) -> bool, s: string)
    requires HitsRelate(m, r, s)
    requires forall c :: r(c, c)
    ensures Related(r, s, ScanWith(m, s, 0))
  {
    ScanRelates(m, r, s, 0);
    assert s[0..] == s;
  }
}
