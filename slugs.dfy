// Slugs: lower-case ASCII letters, digits and single inner hyphens.  The
// generators and the migration scripts each build them in their own way,
// but all of them end with the same two regular-expression steps: collapse
// runs of hyphens, then strip hyphens from both ends.

module Slugs {
  import opened Strings

  predicate IsSlugChar(c: char) { IsLowerAlnum(c) || c == '-' }

  predicate AllSlugChars(s: string) { forall i :: 0 <= i < |s| ==> IsSlugChar(s[i]) }

  predicate NoDoubleHyphen(s: string)
  {
    forall i :: 0 <= i < |s| - 1 ==> s[i] != '-' || s[i + 1] != '-'
  }

  /** What every slug builder promises: slug characters, no `--`, no hyphen at either end. */
  predicate IsSlug(s: string)
  {
    AllSlugChars(s) && NoDoubleHyphen(s) && (s == [] || (s[0] != '-' && s[|s| - 1] != '-'))
  }

  /** `re.sub(r"-+", "-", s)`: every run of hyphens becomes one. */
  function CollapseHyphens(s: string): (r: string)
    ensures |r| <= |s|
    ensures NoDoubleHyphen(r)
    ensures forall i :: 0 <= i < |r| ==> r[i] in s
    ensures s != [] ==> r != [] && r[0] == s[0] && r[|r| - 1] == s[|s| - 1]
    ensures NoDoubleHyphen(s) ==> r == s
  {
    if |s| < 2 then s
    else if s[0] == '-' && s[1] == '-' then CollapseHyphens(s[1..])
    else [s[0]] + CollapseHyphens(s[1..])
  }

  /** The shared ending of every slug builder: collapse, then `strip("-")`. */
  function FinishSlug(s: string): string
  {
    StripChar(CollapseHyphens(s), '-')
  }

  /** `StripChar` keeps the contiguous piece of its input that starts at `a`. */
  lemma StripCharSlice(s: string, c: char) returns (a: nat)
    ensures a + |StripChar(s, c)| <= |s|
    ensures forall i :: 0 <= i < |StripChar(s, c)| ==> StripChar(s, c)[i] == s[a + i]
  {
    var l := LStripChar(s, c);
    a := |s| - |l|;
  }

  /** Whatever the characters were, finishing gives a slug once they are slug characters. */
  lemma FinishSlugIsSlug(s: string)
    requires AllSlugChars(s)
    ensures IsSlug(FinishSlug(s))
  {
    var c := CollapseHyphens(s);
    var a := StripCharSlice(c, '-');
    SliceChars(s, c, a, FinishSlug(s));
    SliceNoDoubleHyphen(c, a, FinishSlug(s));
  }

  /** A piece of a string made of characters of a slug-character string is made of slug characters. */
  lemma SliceChars(s: string, c: string, a: nat, r: string)
    requires AllSlugChars(s) && forall i :: 0 <= i < |c| ==> c[i] in s
    requires a + |r| <= |c| && forall i :: 0 <= i < |r| ==> r[i] == c[a + i]
    ensures AllSlugChars(r)
  {
    forall i | 0 <= i < |r| ensures IsSlugChar(r[i]) {
      assert c[a + i] in s;
      var j :| 0 <= j < |s| && s[j] == c[a + i];
    }
  }

  /** A contiguous piece of a string without `--` has none either. */
  lemma SliceNoDoubleHyphen(c: string, a: nat, r: string)
    requires NoDoubleHyphen(c)
    requires a + |r| <= |c| && forall i :: 0 <= i < |r| ==> r[i] == c[a + i]
    ensures NoDoubleHyphen(r)
  {
    forall i | 0 <= i < |r| - 1 ensures r[i] != '-' || r[i + 1] != '-' {
      assert r[i] == c[a + i] && r[i + 1] == c[a + i + 1];
    }
  }

  /** A slug passes through finishing unchanged. */
  lemma FinishSlugOfSlug(s: string)
    requires IsSlug(s)
    ensures FinishSlug(s) == s
  {
  }
}
