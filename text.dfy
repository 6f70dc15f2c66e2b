/**
 * The few Python `str` operations the core uses, over `seq<char>`.
 * Case mapping and whitespace are those of the ASCII range only.
 */
module Text {

  /** Concatenation is associative. */
  lemma AppendAssoc<T>(a: seq<T>, b: seq<T>, c: seq<T>)
    ensures a + b + c == a + (b + c)
  {
  }

  /** `s.startswith(prefix)` */
  predicate StartsWith(s: string, prefix: string) {
    |prefix| <= |s| && s[..|prefix|] == prefix
  }

  /** `sub in s` */
  predicate Contains(s: string, sub: string)
    decreases |s|
  {
    StartsWith(s, sub) || (|s| > 0 && Contains(s[1..], sub))
  }

  /** An occurrence of `sub` at position `i` of `s`. */
  predicate OccursAt(s: string, sub: string, i: int) {
    0 <= i && i + |sub| <= |s| && s[i..i + |sub|] == sub
  }

  lemma {:induction false} ContainsIffOccurs(s: string, sub: string)
    ensures Contains(s, sub) <==> exists i :: OccursAt(s, sub, i)
    decreases |s|
  {
    if StartsWith(s, sub) {
      assert OccursAt(s, sub, 0);
    } else if |s| > 0 {
      ContainsIffOccurs(s[1..], sub);
      if Contains(s[1..], sub) {
        var i :| OccursAt(s[1..], sub, i);
        assert s[1..][i..i + |sub|] == s[i + 1..i + 1 + |sub|];
        assert OccursAt(s, sub, i + 1);
      }
      if i :| OccursAt(s, sub, i) {
        assert i != 0;
        assert s[1..][i - 1..i - 1 + |sub|] == s[i..i + |sub|];
        assert OccursAt(s[1..], sub, i - 1);
      }
    }
  }

  lemma ContainsOccurrence(s: string, sub: string, i: int)
    requires OccursAt(s, sub, i)
    ensures Contains(s, sub)
  {
    ContainsIffOccurs(s, sub);
  }

  /** Containment is transitive: a string holding `a` holds everything `a` holds. */
  lemma ContainsTransitive(s: string, a: string, b: string)
    requires Contains(s, a) && Contains(a, b)
    ensures Contains(s, b)
  {
    ContainsIffOccurs(s, a);
    ContainsIffOccurs(a, b);
    var i :| OccursAt(s, a, i);
    var j :| OccursAt(a, b, j);
    assert a == s[i..i + |a|];
    forall k | 0 <= k < |b|
      ensures b[k] == s[i + j + k]
    {
      assert b[k] == a[j + k];
    }
    assert b == s[i + j..i + j + |b|];
    ContainsOccurrence(s, b, i + j);
  }

  /** Nothing non-empty occurs in the empty string. */
  lemma EmptyContainsNothing(sub: string)
    requires |sub| > 0
    ensures !Contains([], sub)
  {
  }

  function LowerChar(c: char): char {
    if 'A' <= c <= 'Z' then (c as int + 32) as char else c
  }

  /** `s.lower()` */
  function Lower(s: string): (r: string)
    ensures |r| == |s| && forall i :: 0 <= i < |s| ==> r[i] == LowerChar(s[i])
  {
    seq(|s|, i requires 0 <= i < |s| => LowerChar(s[i]))
  }

  /** `s.replace(pat, rep)`: left to right, non-overlapping occurrences. */
  function Replace(s: string, pat: string, rep: string): string
    requires |pat| > 0
    decreases |s|
  {
    if |s| < |pat| then s
    else if s[..|pat|] == pat then rep + Replace(s[|pat|..], pat, rep)
    else [s[0]] + Replace(s[1..], pat, rep)
  }

  /** Replacing every occurrence of a character by a string without it leaves none behind. */
  lemma {:induction false} ReplaceRemoves(s: string, c: char, rep: string)
    requires c !in rep
    ensures c !in Replace(s, [c], rep)
    decreases |s|
  {
    if |s| >= 1 {
      if s[..1] == [c] {
        ReplaceRemoves(s[1..], c, rep);
      } else {
        assert s[0] != c by { assert s[..1][0] == s[0]; }
        ReplaceRemoves(s[1..], c, rep);
      }
    }
  }

  /** Replacing one character by another keeps the length and maps each position on its own. */
  lemma {:induction false} ReplaceCharAt(s: string, c: char, d: char)
    ensures |Replace(s, [c], [d])| == |s|
    ensures forall i :: 0 <= i < |s| ==> Replace(s, [c], [d])[i] == if s[i] == c then d else s[i]
    decreases |s|
  {
    if |s| >= 1 {
      ReplaceCharAt(s[1..], c, d);
      var head := if s[0] == c then [d] else [s[0]];
      assert s[..1] == [c] <==> s[0] == c by { assert s[..1][0] == s[0]; }
      assert Replace(s, [c], [d]) == head + Replace(s[1..], [c], [d]);
      forall i | 1 <= i < |s|
        ensures Replace(s, [c], [d])[i] == if s[i] == c then d else s[i]
      {
        assert s[i] == s[1..][i - 1];
      }
    }
  }

  /** A text holding no occurrence of the pattern is left as it is. */
  lemma {:induction false} ReplaceAbsent(s: string, pat: string, rep: string)
    requires |pat| > 0
    ensures !Contains(s, pat) ==> Replace(s, pat, rep) == s
    decreases |s|
  {
    if !Contains(s, pat) && |s| >= |pat| {
      assert s[..|pat|] != pat;
      ReplaceAbsent(s[1..], pat, rep);
      assert [s[0]] + s[1..] == s;
    }
  }

  /** Replacing one character by a string distributes over concatenation. */
  lemma {:induction false} ReplaceCharConcat(a: string, b: string, c: char, rep: string)
    ensures Replace(a + b, [c], rep) == Replace(a, [c], rep) + Replace(b, [c], rep)
    decreases |a|
  {
    if a == [] {
      assert a + b == b;
    } else {
      assert (a + b)[..1] == a[..1];
      assert (a + b)[1..] == a[1..] + b;
      assert (a + b)[0] == a[0];
      ReplaceCharConcat(a[1..], b, c, rep);
      var head := if a[..1] == [c] then rep else [a[0]];
      AppendAssoc(head, Replace(a[1..], [c], rep), Replace(b, [c], rep));
    }
  }

  /** Replacing the first `c` of a text, when the part before it holds none. */
  lemma ReplaceCharSplit(a: string, b: string, c: char, d: char)
    requires c !in a
    ensures Replace(a + [c] + b, [c], [d]) == a + [d] + Replace(b, [c], [d])
  {
    ReplaceCharConcat(a, [c] + b, c, [d]);
    ReplaceCharConcat([c], b, c, [d]);
    MissingCharAbsent(a, [c], c);
    ReplaceAbsent(a, [c], [d]);
    assert a + [c] + b == a + ([c] + b);
    assert Replace([c], [c], [d]) == [d];
  }

  /** Every character of a prefix occurs in the text. */
  lemma PrefixChars(s: string, sub: string)
    ensures StartsWith(s, sub) ==> forall x :: x in sub ==> x in s
  {
    if StartsWith(s, sub) {
      forall x | x in sub
        ensures x in s
      {
        var k :| 0 <= k < |sub| && sub[k] == x;
        assert s[..|sub|][k] == s[k];
      }
    }
  }

  /** A text lacking one of the pattern's characters does not contain the pattern. */
  lemma {:induction false} MissingCharAbsent(s: string, sub: string, c: char)
    requires c in sub && c !in s
    ensures !Contains(s, sub)
    decreases |s|
  {
    PrefixChars(s, sub);
    if |s| > 0 {
      MissingCharAbsent(s[1..], sub, c);
    }
  }

  /** `c.isspace()` for the ASCII range. */
  predicate IsSpace(c: char) {
    c == ' ' || (9 <= c as int <= 13) || (28 <= c as int <= 31)
  }

  function TrimStart(s: string): (r: string)
    decreases |s|
  {
    if |s| > 0 && IsSpace(s[0]) then TrimStart(s[1..]) else s
  }

  function TrimEnd(s: string): (r: string)
    decreases |s|
  {
    if |s| > 0 && IsSpace(s[|s| - 1]) then TrimEnd(s[..|s| - 1]) else s
  }

  /** `s.strip()` */
  function Strip(s: string): (r: string) {
    TrimEnd(TrimStart(s))
  }

  /** A string that starts and ends with non-space characters is its own `strip()`. */
  lemma StripUnchanged(s: string)
    requires |s| > 0 && !IsSpace(s[0]) && !IsSpace(s[|s| - 1])
    ensures Strip(s) == s
  {
  }

  /** `sep.join(parts)` */
  function Join(parts: seq<string>, sep: string): string
    decreases |parts|
  {
    if |parts| == 0 then ""
    else if |parts| == 1 then parts[0]
    else parts[0] + sep + Join(parts[1..], sep)
  }

  function DigitChar(d: nat): char
    requires d < 10
  {
    ('0' as int + d) as char
  }

  /** `str(n)` for a natural number. */
  function NatToString(n: nat): (r: string)
    decreases n
  {
    if n < 10 then [DigitChar(n)] else NatToString(n / 10) + [DigitChar(n % 10)]
  }
}
