/** The java.lang.String operations the dumper applies to catalog text:
    equalsIgnoreCase against an ASCII keyword, contains, and replace with a
    one-character target. Strings are sequences of Unicode scalar values; every
    pattern used is ASCII, so UTF-16 surrogate pairs never change an outcome. */
module JavaStrings {

  /** The letter Java's case-insensitive comparison treats c as, when that letter is ASCII:
      ASCII capitals fold to lower case, and the four non-ASCII characters whose
      upper or lower case is an ASCII letter (dotted capital I, dotless small i,
      long s, Kelvin sign) fold onto that letter. */
  function FoldCase(c: char): char {
    if 'A' <= c <= 'Z' then (c as int + 32) as char
    else if c == '\U{0130}' || c == '\U{0131}' then 'i'
    else if c == '\U{017F}' then 's'
    else if c == '\U{212A}' then 'k'
    else c
  }

  /** String.equalsIgnoreCase(keyword). The dumper only compares against the ASCII keywords
      TABLE, integer and n, for which comparing folded characters is Java's rule. */
  predicate EqualsIgnoreCase(s: string, keyword: string) {
    |s| == |keyword| && forall i :: 0 <= i < |s| ==> FoldCase(s[i]) == FoldCase(keyword[i])
  }

  /** The IS_NULLABLE test of the DDL renderer accepts exactly the one-letter strings n and N. */
  lemma EqualsIgnoreCaseN(s: string)
    ensures EqualsIgnoreCase(s, "n") <==> s == "n" || s == "N"
  {
    if |s| == 1 && FoldCase(s[0]) == 'n' {
      assert s == [s[0]];
    }
  }

  /** String.contains: the text starts with pat here or somewhere further on. */
  predicate Contains(s: string, pat: string) {
    |pat| <= |s| && (s[..|pat|] == pat || Contains(s[1..], pat))
  }

  /** pat occurs in s starting at position i. */
  predicate OccursAt(s: string, pat: string, i: int) {
    0 <= i <= |s| - |pat| && s[i..i + |pat|] == pat
  }

  /** Contains agrees with its meaning: pat occurs at some position of s. */
  lemma {:induction false} ContainsIff(s: string, pat: string)
    ensures Contains(s, pat) <==> exists i :: OccursAt(s, pat, i)
  {
    if |pat| <= |s| {
      if s[..|pat|] == pat {
        assert OccursAt(s, pat, 0);
      } else {
        ContainsIff(s[1..], pat);
        if i :| OccursAt(s, pat, i) {
          assert i != 0;
          assert OccursAt(s[1..], pat, i - 1) by {
            assert s[1..][i - 1..i - 1 + |pat|] == s[i..i + |pat|];
          }
        }
        if i :| OccursAt(s[1..], pat, i) {
          assert OccursAt(s, pat, i + 1) by {
            assert s[1..][i..i + |pat|] == s[i + 1..i + 1 + |pat|];
          }
        }
      }
    } else {
      if i :| OccursAt(s, pat, i) {
        assert false;
      }
    }
  }

  /** String.replace(c, rep) where the target is the one character c. */
  function ReplaceChar(s: string, c: char, rep: string): string {
    if s == [] then "" else (if s[0] == c then rep else [s[0]]) + ReplaceChar(s[1..], c, rep)
  }

  /** Replacing in a concatenation is replacing in each part. */
  lemma {:induction false} ReplaceCharAppend(a: string, b: string, c: char, rep: string)
    ensures ReplaceChar(a + b, c, rep) == ReplaceChar(a, c, rep) + ReplaceChar(b, c, rep)
  {
    if a != [] {
      assert (a + b)[1..] == a[1..] + b;
      ReplaceCharAppend(a[1..], b, c, rep);
    } else {
      assert a + b == b;
    }
  }

  /** Text without the target character comes back unchanged. */
  lemma {:induction false} ReplaceCharAbsent(s: string, c: char, rep: string)
    requires c !in s
    ensures ReplaceChar(s, c, rep) == s
  {
    if s != [] {
      ReplaceCharAbsent(s[1..], c, rep);
    }
  }

  /** A replacement that does not itself hold the target leaves no target behind. */
  lemma {:induction false} ReplaceCharRemoves(s: string, c: char, rep: string)
    requires c !in rep
    ensures c !in ReplaceChar(s, c, rep)
  {
    if s != [] {
      ReplaceCharRemoves(s[1..], c, rep);
    }
  }

  /** Number of occurrences of c in s. */
  function Count(s: string, c: char): nat {
    if s == [] then 0 else (if s[0] == c then 1 else 0) + Count(s[1..], c)
  }

  /** Every occurrence of the target grows the text by |rep| - 1 characters. */
  lemma {:induction false} ReplaceCharLength(s: string, c: char, rep: string)
    ensures |ReplaceChar(s, c, rep)| == |s| + Count(s, c) * (|rep| - 1)
  {
    if s != [] {
      ReplaceCharLength(s[1..], c, rep);
    }
  }
}
