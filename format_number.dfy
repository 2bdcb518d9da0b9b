// `formatNumber`: an integer written in decimal with a comma before every
// group of three digits counted from the right, as the regular expression
// `\B(?=(\d{3})+(?!\d))` places them.

module FormatNumber {
  import opened Strings
  import opened BoilerplateReadme

  /**
   * The regular expression scanned left to right over a string of digits:
   * a comma goes before position `i` when `i` is not the start (`\B`) and
   * the digits left from `i` are a positive multiple of three.
   */
  function CommasFrom(s: string, i: nat): string
    requires i <= |s|
    decreases |s| - i
  {
    if i == |s| then []
    else (if CommaBefore(|s|, i) then "," else "") + [s[i]] + CommasFrom(s, i + 1)
  }

  /** `\B(?=(\d{3})+(?!\d))` at position `i` of `len` digits. */
  predicate CommaBefore(len: nat, i: nat)
  {
    0 < i && (len - i) % 3 == 0
  }

  /** `num.toString().replace(/\B(?=(\d{3})+(?!\d))/g, ",")` for an integer `num`. */
  function FormatNumber(n: int): string
  {
    if n < 0 then "-" + CommasFrom(NatToString(-n), 0) else CommasFrom(NatToString(n), 0)
  }

  /** Grouping from the right, the reference the regular expression is checked against. */
  function Grouped(s: string): (r: string)
    ensures s != [] ==> r != [] && r[0] == s[0] && r[|r| - 1] == s[|s| - 1]
    decreases |s|
  {
    if |s| <= 3 then s else Grouped(s[..|s| - 3]) + "," + s[|s| - 3..]
  }

  /** The groups of three counted from the right; the first may be shorter. */
  function Groups(s: string): (r: seq<string>)
    decreases |s|
  {
    if |s| <= 3 then [s] else Groups(s[..|s| - 3]) + [s[|s| - 3..]]
  }

  /** `s.split(',').join('')`. */
  function RemoveCommas(s: string): string
  {
    Join(SplitOn(s, ','), "")
  }

  /** Positions where the expression puts no comma are copied as they are. */
  lemma {:induction false} CommasFromPlain(s: string, i: nat)
    requires i <= |s| && (|s| - i < 3 || (i == 0 && |s| <= 3))
    ensures CommasFrom(s, i) == s[i..]
    decreases |s| - i
  {
    if i < |s| {
      CommasFromPlain(s, i + 1);
      assert s[i..] == [s[i]] + s[i + 1..];
    }
  }

  /** Scanning `s` is scanning it without its last three digits, then a comma and those three. */
  lemma {:induction false} CommasFromLast(s: string, i: nat)
    requires |s| > 3 && i <= |s| - 3
    ensures CommasFrom(s, i) == CommasFrom(s[..|s| - 3], i) + "," + s[|s| - 3..]
    decreases |s| - i
  {
    var p := s[..|s| - 3];
    if i == |p| {
      CommasFromPlain(s, i + 1);
      assert s[i..] == [s[i]] + s[i + 1..];
    } else {
      CommasFromLast(s, i + 1);
      CommasFromLastStep(s, i);
    }
  }

  /** One scanning step taken on both sides of `CommasFromLast`. */
  lemma CommasFromLastStep(s: string, i: nat)
    requires |s| > 3 && i < |s| - 3
    requires CommasFrom(s, i + 1) == CommasFrom(s[..|s| - 3], i + 1) + "," + s[|s| - 3..]
    ensures CommasFrom(s, i) == CommasFrom(s[..|s| - 3], i) + "," + s[|s| - 3..]
  {
    var p, tail := s[..|s| - 3], s[|s| - 3..];
    var q := (if CommaBefore(|s|, i) then "," else "") + [s[i]];
    var rest := CommasFrom(p, i + 1);
    CommaBeforeShift(|s|, i);
    assert p[i] == s[i];
    assert CommasFrom(s, i) == q + CommasFrom(s, i + 1);
    assert CommasFrom(p, i) == q + rest;
    Regroup(q, rest, tail);
  }

  lemma Regroup(a: string, b: string, t: string)
    ensures a + (b + "," + t) == a + b + "," + t
  {
  }

  lemma CommaBeforeShift(len: nat, i: nat)
    requires i + 3 <= len
    ensures CommaBefore(len - 3, i) == CommaBefore(len, i)
  {
  }

  /** The regular expression groups exactly as grouping from the right does. */
  lemma {:induction false} CommasFromGrouped(s: string)
    ensures CommasFrom(s, 0) == Grouped(s)
    decreases |s|
  {
    if |s| <= 3 {
      CommasFromPlain(s, 0);
    } else {
      CommasFromLast(s, 0);
      CommasFromGrouped(s[..|s| - 3]);
    }
  }

  /** The groups read back from the commas, and together they spell the digits. */
  lemma {:induction false} GroupedSplits(s: string)
    requires ',' !in s
    ensures SplitOn(Grouped(s), ',') == Groups(s)
    ensures Join(Groups(s), "") == s
    ensures s != [] ==> 1 <= |Groups(s)[0]| <= 3
    ensures forall i :: 1 <= i < |Groups(s)| ==> |Groups(s)[i]| == 3
    decreases |s|
  {
    if |s| <= 3 {
      SplitOnNone(s, ',');
    } else {
      var p, q := s[..|s| - 3], s[|s| - 3..];
      assert ',' !in p && ',' !in q by {
        assert forall c <- p :: c in s;
        assert forall c <- q :: c in s;
      }
      GroupedSplits(p);
      SplitOnSnoc(Grouped(p), q, ',');
      assert Groups(p) != [];
      JoinAppend(Groups(p), [q], "");
      assert Join(Groups(p), "") + "" + q == s;
    }
  }

  /** The last separator splits off the last piece. */
  lemma {:induction false} SplitOnSnoc(a: string, w: string, sep: char)
    requires sep !in w
    ensures SplitOn(a + [sep] + w, sep) == SplitOn(a, sep) + [w]
    decreases |a|
  {
    var s := a + [sep] + w;
    if a == [] {
      assert s == [sep] + w && s[1..] == w;
      SplitOnNone(w, sep);
    } else {
      assert s[1..] == a[1..] + [sep] + w;
      SplitOnSnoc(a[1..], w, sep);
    }
  }

  /**
   * Removing the commas gives back `toString()`; numbers between -999 and
   * 999 are unchanged; the output never starts or ends with a comma; after
   * the sign, the first group has one to three digits and every later group
   * exactly three.
   */
  lemma FormatNumberFacts(n: int)
    ensures RemoveCommas(FormatNumber(n)) == IntToString(n)
    ensures -1000 < n < 1000 ==> FormatNumber(n) == IntToString(n)
    ensures var r := FormatNumber(n);
      r != [] && r[0] != ',' && r[|r| - 1] != ','
    ensures var parts := SplitOn(FormatNumber(n), ',');
      1 <= |parts[0]| - (if n < 0 then 1 else 0) <= 3 &&
      forall i :: 1 <= i < |parts| ==> |parts[i]| == 3
  {
    var m: nat := if n < 0 then -n else n;
    var s := NatToString(m);
    assert ',' !in s by {
      forall k | 0 <= k < |s| ensures s[k] != ',' {
        assert IsDigit(s[k]);
      }
    }
    CommasFromGrouped(s);
    if n < 0 {
      SignedGroupedFacts(s);
    } else {
      GroupedFacts(s);
    }
    if m < 1000 {
      ShortDigits(m);
    }
  }

  lemma ShortDigits(m: nat)
    requires m < 1000
    ensures |NatToString(m)| <= 3
  {
    assert Power10(2) == 100 by {
      assert Power10(1) == 10;
    }
    NatToStringShort(m, 3);
  }

  /** The grouped digits: commas removed give the digits, none at either end, groups of three. */
  lemma GroupedFacts(s: string)
    requires ',' !in s && s != []
    ensures RemoveCommas(Grouped(s)) == s
    ensures var r := Grouped(s); r[0] != ',' && r[|r| - 1] != ','
    ensures var parts := SplitOn(Grouped(s), ',');
      1 <= |parts[0]| <= 3 && forall i :: 1 <= i < |parts| ==> |parts[i]| == 3
  {
    GroupedSplits(s);
    assert s[0] in s && s[|s| - 1] in s;
  }

  /** The same behind a minus sign, which joins the first group. */
  lemma SignedGroupedFacts(s: string)
    requires ',' !in s && s != []
    ensures RemoveCommas("-" + Grouped(s)) == "-" + s
    ensures var r := "-" + Grouped(s); r[0] != ',' && r[|r| - 1] != ','
    ensures var parts := SplitOn("-" + Grouped(s), ',');
      1 <= |parts[0]| - 1 <= 3 && forall i :: 1 <= i < |parts| ==> |parts[i]| == 3
  {
    GroupedSplits(s);
    SignedGroups(s);
    assert s[|s| - 1] in s;
  }

  /** A minus sign in front joins the first group. */
  lemma SignedGroups(s: string)
    requires ',' !in s && s != []
    ensures SplitOn("-" + Grouped(s), ',') == ["-" + Groups(s)[0]] + Groups(s)[1..]
    ensures RemoveCommas("-" + Grouped(s)) == "-" + s
  {
    GroupedSplits(s);
    var r := "-" + Grouped(s);
    assert r[0] == '-' && r[1..] == Grouped(s);
    JoinCons("-", Groups(s));
  }

  /** Joining with nothing between: text put before the first part comes first. */
  lemma JoinCons(x: string, parts: seq<string>)
    requires parts != []
    ensures Join([x + parts[0]] + parts[1..], "") == x + Join(parts, "")
  {
    if |parts| > 1 {
      assert ([x + parts[0]] + parts[1..])[1..] == parts[1..];
    }
  }
}
