/** Java string search as the test uses it (`String.contains`). */
module Text {

  /** `s.contains(sub)`: `sub` starts at some position of `s`. */
  predicate Contains(s: string, sub: string)
    decreases |s|
  {
    sub <= s || (|s| > 0 && Contains(s[1..], sub))
  }

  /** An occurrence of `sub` at position `i` of `s`. */
  predicate OccursAt(s: string, sub: string, i: nat)
    requires i <= |s|
  {
    sub <= s[i..]
  }

  /** `Contains` agrees with the positional definition of an occurrence. */
  lemma {:induction false} ContainsIffOccurs(s: string, sub: string)
    ensures Contains(s, sub) <==> exists i :: 0 <= i <= |s| && OccursAt(s, sub, i)
    decreases |s|
  {
    if Contains(s, sub) {
      if sub <= s {
        assert s[0..] == s;
        assert OccursAt(s, sub, 0);
      } else {
        ContainsIffOccurs(s[1..], sub);
        var j :| 0 <= j <= |s[1..]| && OccursAt(s[1..], sub, j);
        assert s[1..][j..] == s[j + 1..];
        assert OccursAt(s, sub, j + 1);
      }
    }
    if exists i :: 0 <= i <= |s| && OccursAt(s, sub, i) {
      var i :| 0 <= i <= |s| && OccursAt(s, sub, i);
      if i == 0 {
        assert s[0..] == s;
      } else {
        assert s[1..][i - 1..] == s[i..];
        assert OccursAt(s[1..], sub, i - 1);
        ContainsIffOccurs(s[1..], sub);
      }
    }
  }

  /** Whatever `b` contains, `a + b` contains too. */
  lemma {:induction false} ContainsInSuffix(a: string, b: string, sub: string)
    requires Contains(b, sub)
    ensures Contains(a + b, sub)
    decreases |a|
  {
    if a == [] {
      assert a + b == b;
    } else {
      assert (a + b)[1..] == a[1..] + b;
      ContainsInSuffix(a[1..], b, sub);
    }
  }

  /** A non-empty string that occurs in `s` brings its first character with it. */
  lemma {:induction false} ContainsFirstChar(s: string, sub: string)
    requires |sub| > 0 && Contains(s, sub)
    ensures sub[0] in s
    decreases |s|
  {
    if sub <= s {
      assert s[0] == sub[0];
    } else {
      ContainsFirstChar(s[1..], sub);
      assert sub[0] in s[1..];
    }
  }

  /** No position of `h` can begin an occurrence of `sub`: each character
      of `h` either differs from the first of `sub` or is followed, still
      inside `h`, by one that differs from the second. */
  predicate NoStartIn(h: string, sub: string)
    requires |sub| >= 2
    decreases |h|
  {
    h == [] || ((h[0] != sub[0] || (|h| > 1 && h[1] != sub[1])) && NoStartIn(h[1..], sub))
  }

  /** Prefixing `m` with a header that cannot start an occurrence of `sub`
      creates no occurrence. */
  lemma {:induction false} ContainsPastHeader(h: string, m: string, sub: string)
    requires |sub| >= 2 && NoStartIn(h, sub)
    requires !Contains(m, sub)
    ensures !Contains(h + m, sub)
    decreases |h|
  {
    if h == [] {
      assert h + m == m;
    } else {
      assert (h + m)[0] == h[0];
      if h[0] == sub[0] {
        assert (h + m)[1] == h[1];
      }
      assert !(sub <= h + m);
      assert (h + m)[1..] == h[1..] + m;
      ContainsPastHeader(h[1..], m, sub);
    }
  }

  /** A header without the first character of `sub` cannot start it. */
  lemma {:induction false} NoStartWithoutFirstChar(h: string, sub: string)
    requires |sub| >= 2 && sub[0] !in h
    ensures NoStartIn(h, sub)
    decreases |h|
  {
    if h != [] {
      assert h[0] in h;
      assert forall c :: c in h[1..] ==> c in h;
      NoStartWithoutFirstChar(h[1..], sub);
    }
  }
}
