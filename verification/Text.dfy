/** Text building blocks: decimal printing of integers, as `format!` does it, and reading
a separated text back. */
module Text {

  function Natural(n: nat): (s: string)
    ensures s != [] && forall i :: 0 <= i < |s| ==> '0' <= s[i] <= '9'
  {
    var last := ('0' as int + n % 10) as char;
    if n < 10 then [last] else Natural(n / 10) + [last]
  }

  function Integer(i: int): string {
    if i < 0 then "-" + Natural(-i) else Natural(i)
  }

  lemma {:induction false} NaturalInjective(m: nat, n: nat)
    ensures Natural(m) == Natural(n) <==> m == n
  {
    var s, t := Natural(m), Natural(n);
    assert s[|s| - 1] == t[|t| - 1] <==> m % 10 == n % 10;
    if m >= 10 && n >= 10 {
      assert s[..|s| - 1] == Natural(m / 10) && t[..|t| - 1] == Natural(n / 10);
      NaturalInjective(m / 10, n / 10);
    }
  }

  lemma IntegerInjective(i: int, j: int)
    ensures Integer(i) == Integer(j) <==> i == j
  {
    if i < 0 && j < 0 {
      assert Integer(i)[1..] == Natural(-i) && Integer(j)[1..] == Natural(-j);
      NaturalInjective(-i, -j);
    } else if i >= 0 && j >= 0 {
      NaturalInjective(i, j);
    } else {
      assert Integer(i)[0] != Integer(j)[0];
    }
  }

  lemma IntegerAvoids(i: int, c: char)
    requires c != '-' && !('0' <= c <= '9')
    ensures c !in Integer(i)
  {
  }

  /** The text after the last separator, and the text before it, can be read back. */
  lemma SplitAtLast(a: string, x: string, b: string, y: string, c: char)
    requires c !in x && c !in y
    ensures a + [c] + x == b + [c] + y <==> a == b && x == y
  {
    var s, t := a + [c] + x, b + [c] + y;
    if |s| == |t| {
      if |a| < |b| {
        assert t[|b|] == c && s[|b|] == x[|b| - |a| - 1];
      } else if |b| < |a| {
        assert s[|a|] == c && t[|a|] == y[|a| - |b| - 1];
      } else {
        assert s[..|a|] == a && t[..|b|] == b;
        assert s[|a| + 1..] == x && t[|b| + 1..] == y;
      }
    }
  }

  lemma SplitAtFirst(a: string, x: string, b: string, y: string, c: char)
    requires c !in a && c !in b
    ensures a + [c] + x == b + [c] + y <==> a == b && x == y
  {
    var s, t := a + [c] + x, b + [c] + y;
    if |s| == |t| {
      if |a| < |b| {
        assert s[|a|] == c && t[|a|] == b[|a|];
      } else if |b| < |a| {
        assert t[|b|] == c && s[|b|] == a[|b|];
      } else {
        assert s[..|a|] == a && t[..|b|] == b;
        assert s[|a| + 1..] == x && t[|b| + 1..] == y;
      }
    }
  }

  predicate StartsWith(s: string, prefix: string) {
    prefix <= s
  }

  predicate Contains(s: string, part: string) {
    exists i :: 0 <= i <= |s| && part <= s[i..]
  }

  /** `s` is `part` with something, possibly nothing, on either side. */
  ghost predicate Around(s: string, part: string) {
    exists before, after :: s == before + part + after
  }

  lemma ContainsIffAround(s: string, part: string)
    ensures Contains(s, part) <==> Around(s, part)
  {
    if Contains(s, part) {
      var i :| 0 <= i <= |s| && part <= s[i..];
      assert s == s[..i] + part + s[i + |part|..];
    }
    if Around(s, part) {
      var before, after :| s == before + part + after;
      assert s[|before|..] == part + after;
    }
  }
}
