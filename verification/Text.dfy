/** String operations the operator takes from Go's strings package. */
module Text {
  import opened Prelude

  /** The white space that strings.TrimSpace removes (Unicode White_Space). */
  predicate IsSpace(c: char) {
    || '\t' <= c <= '\r' || c == ' ' || c == '\U{85}' || c == '\U{A0}' || c == '\U{1680}'
    || '\U{2000}' <= c <= '\U{200A}' || c == '\U{2028}' || c == '\U{2029}' || c == '\U{202F}'
    || c == '\U{205F}' || c == '\U{3000}'
  }

  /** The 25 code points that Unicode lists as white space. */
  lemma SpaceCodes(c: char)
    ensures IsSpace(c) <==>
      c as int in {9, 10, 11, 12, 13, 32, 133, 160, 5760,
                   8192, 8193, 8194, 8195, 8196, 8197, 8198, 8199, 8200, 8201, 8202,
                   8232, 8233, 8239, 8287, 12288}
  {
  }

  function TrimLeft(s: string): string {
    if s != "" && IsSpace(s[0]) then TrimLeft(s[1..]) else s
  }

  function TrimRight(s: string): string {
    if s != "" && IsSpace(Last(s)) then TrimRight(Init(s)) else s
  }

  function TrimSpace(s: string): string {
    TrimRight(TrimLeft(s))
  }

  predicate AllSpace(s: string) {
    forall c <- s :: IsSpace(c)
  }

  lemma {:induction false} TrimLeftCuts(s: string) returns (i: nat)
    ensures i <= |s| && AllSpace(s[..i]) && TrimLeft(s) == s[i..] && (i < |s| ==> !IsSpace(s[i]))
  {
    i := 0;
    if s != "" && IsSpace(s[0]) {
      i := TrimLeftCuts(s[1..]);
      assert s[..i + 1] == [s[0]] + s[1..][..i];
      i := i + 1;
    }
  }

  lemma {:induction false} TrimRightCuts(s: string) returns (j: nat)
    ensures j <= |s| && AllSpace(s[j..]) && TrimRight(s) == s[..j] && (j > 0 ==> !IsSpace(s[j - 1]))
  {
    j := |s|;
    if s != "" && IsSpace(Last(s)) {
      j := TrimRightCuts(Init(s));
      assert s[j..] == Init(s)[j..] + [Last(s)];
    }
  }

  /** `t` is `s` without the white space at its ends: nothing else is cut off, and neither end of `t` is white. */
  predicate Trims(t: string, s: string) {
    && (exists i, j | 0 <= i <= j <= |s| :: s[i..j] == t && AllSpace(s[..i]) && AllSpace(s[j..]))
    && (t != "" ==> !IsSpace(t[0]) && !IsSpace(Last(t)))
  }

  lemma TrimSpaceTrims(s: string)
    ensures Trims(TrimSpace(s), s)
  {
    var i := TrimLeftCuts(s);
    var j := TrimRightCuts(s[i..]);
    assert s[i..][..j] == s[i..i + j] && s[i..][j..] == s[i + j..];
  }

  /** There is only one such text. */
  lemma TrimsIsUnique(t: string, s: string)
    requires Trims(t, s)
    ensures t == TrimSpace(s)
  {
    TrimSpaceTrims(s);
    var u := TrimSpace(s);
    var i, j := CutOut(t, s);
    var k, l := CutOut(u, s);
    if t != "" {
      EndsMatch(s, i, j, k, l);
    }
    if u != "" {
      EndsMatch(s, k, l, i, j);
    }
  }

  lemma CutOut(t: string, s: string) returns (i: nat, j: nat)
    requires Trims(t, s)
    ensures i <= j <= |s| && s[i..j] == t && AllSpace(s[..i]) && AllSpace(s[j..])
    ensures t != "" ==> i < j && !IsSpace(s[i]) && !IsSpace(s[j - 1])
  {
    i, j :| 0 <= i <= j <= |s| && s[i..j] == t && AllSpace(s[..i]) && AllSpace(s[j..]);
  }

  /** A cut of white space cannot reach into a part that starts and ends otherwise. */
  lemma EndsMatch(s: string, i: nat, j: nat, k: nat, l: nat)
    requires i < j <= |s| && k <= l <= |s| && !IsSpace(s[i]) && !IsSpace(s[j - 1])
    requires AllSpace(s[..k]) && AllSpace(s[l..])
    ensures k <= i && j <= l
  {
    assert s[0..k] == s[..k] && s[l..|s|] == s[l..];
    SpaceThroughout(s, 0, k);
    SpaceThroughout(s, l, |s|);
  }

  lemma SpaceThroughout(s: string, i: nat, j: nat)
    requires i <= j <= |s| && AllSpace(s[i..j])
    ensures forall m | i <= m < j :: IsSpace(s[m])
  {
    forall m | i <= m < j ensures IsSpace(s[m]) {
      assert s[i..j][m - i] in s[i..j];
    }
  }

  /** strings.Cut at the first occurrence of `sep`. */
  function Cut(s: string, sep: char): (r: Option<(string, string)>)
    ensures r.None? <==> sep !in s
    ensures r.Some? ==> s == r.value.0 + [sep] + r.value.1 && sep !in r.value.0
  {
    if s == "" then None
    else if s[0] == sep then Some(("", s[1..]))
    else match Cut(s[1..], sep)
      case None => None
      case Some((a, b)) => Some(([s[0]] + a, b))
  }

  /** strings.Compare(a, b) < 0. */
  predicate Less(a: string, b: string) {
    b != "" && (a == "" || a[0] < b[0] || (a[0] == b[0] && Less(a[1..], b[1..])))
  }

  /** At the first place where they differ, if there is one, `a` has ended or has the smaller character. */
  predicate LessAt(a: string, b: string, k: nat) {
    k <= |a| && k < |b| && a[..k] == b[..k] && (k < |a| ==> a[k] < b[k])
  }

  ghost predicate ComesBefore(a: string, b: string) {
    exists k: nat :: LessAt(a, b, k)
  }

  lemma {:induction false} LessExactly(a: string, b: string)
    ensures Less(a, b) <==> ComesBefore(a, b)
  {
    if Less(a, b) {
      if a == "" || a[0] < b[0] {
        assert LessAt(a, b, 0);
      } else {
        LessExactly(a[1..], b[1..]);
        var k: nat :| LessAt(a[1..], b[1..], k);
        assert a[..k + 1] == [a[0]] + a[1..][..k] && b[..k + 1] == [b[0]] + b[1..][..k];
        assert LessAt(a, b, k + 1);
      }
    }
    if k: nat :| LessAt(a, b, k) && k > 0 {
      assert a[0] == a[..k][0] == b[..k][0] == b[0];
      assert a[1..][..k - 1] == a[..k][1..] == b[..k][1..] == b[1..][..k - 1];
      assert LessAt(a[1..], b[1..], k - 1);
      LessExactly(a[1..], b[1..]);
    }
  }

  lemma {:induction false} LessIsStrictTotal(a: string, b: string)
    ensures Less(a, b) || a == b || Less(b, a)
    ensures !(Less(a, b) && Less(b, a))
    ensures !Less(a, a)
  {
    if a != "" {
      LessIsStrictTotal(a[1..], a[1..]);
      if b != "" && a[0] == b[0] {
        LessIsStrictTotal(a[1..], b[1..]);
        assert a == [a[0]] + a[1..] && b == [b[0]] + b[1..];
      }
    }
  }

  lemma {:induction false} LessTransitive(a: string, b: string, c: string)
    requires Less(a, b) && Less(b, c)
    ensures Less(a, c)
  {
    if a != "" && a[0] == b[0] == c[0] {
      LessTransitive(a[1..], b[1..], c[1..]);
    }
  }

  function Lower(c: char): char {
    if 'A' <= c <= 'Z' then c + 32 as char else c
  }

  function ToLower(s: string): (r: string)
    ensures |r| == |s|
    ensures forall i | 0 <= i < |s| :: r[i] == Lower(s[i])
  {
    seq(|s|, i requires 0 <= i < |s| => Lower(s[i]))
  }

  predicate EqualFold(a: string, b: string) {
    ToLower(a) == ToLower(b)
  }

  /** One letter in its two cases. */
  predicate Cases(upper: char, lower: char) {
    'A' <= upper <= 'Z' && 'a' <= lower <= 'z' && upper as int - 'A' as int == lower as int - 'a' as int
  }

  /** Texts fold together exactly if they agree in each place up to the case of a letter. */
  lemma EqualFoldExactly(a: string, b: string)
    ensures EqualFold(a, b) <==>
      |a| == |b| && forall i | 0 <= i < |a| :: a[i] == b[i] || Cases(a[i], b[i]) || Cases(b[i], a[i])
  {
    if |a| == |b| && forall i | 0 <= i < |a| :: a[i] == b[i] || Cases(a[i], b[i]) || Cases(b[i], a[i]) {
      assert forall i | 0 <= i < |a| :: ToLower(a)[i] == ToLower(b)[i];
    }
  }

  /** Folding turns capitals into their small letters and leaves everything else. */
  lemma ToLowerExactly(s: string, i: nat)
    requires i < |s|
    ensures var c := ToLower(s)[i]; if 'A' <= s[i] <= 'Z' then Cases(s[i], c) else c == s[i]
  {
  }
}
