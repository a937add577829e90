/** The string operations the modelled code relies on. */
module Text {
  import opened Prelude

  // ---------------------------------------------------------------- white space

  /** Unicode `White_Space`, the class Rust's `trim` strips. */
  predicate IsSpace(c: char) {
    || '\t' <= c <= '\r'
    || c in {' ', '\U{85}', '\U{A0}', '\U{1680}', '\U{2028}', '\U{2029}', '\U{202F}', '\U{205F}', '\U{3000}'}
    || '\U{2000}' <= c <= '\U{200A}'
  }

  function TrimStart(s: string): (r: string)
    ensures r == "" || !IsSpace(r[0])
    ensures |r| <= |s|
  {
    if s == "" || !IsSpace(s[0]) then s else TrimStart(s[1..])
  }

  function TrimEnd(s: string): (r: string)
    ensures r == "" || !IsSpace(r[|r| - 1])
    ensures r <= s
  {
    if s == "" || !IsSpace(s[|s| - 1]) then s else TrimEnd(s[..|s| - 1])
  }

  function Trim(s: string): string {
    TrimEnd(TrimStart(s))
  }

  /** Trimming takes white space off both ends, all of it, and nothing else. */
  lemma TrimIsInner(s: string) returns (i: nat, j: nat)
    ensures i <= j <= |s| && Trim(s) == s[i..j]
    ensures forall k | 0 <= k < |s| && !(i <= k < j) :: IsSpace(s[k])
    ensures i < j ==> !IsSpace(s[i]) && !IsSpace(s[j - 1])
  {
    hide IsSpace;
    i := StartIsSuffix(s);
    var n := EndIsPrefix(s[i..]);
    j := i + n;
    assert s[i..][..n] == s[i..j];
    forall k | j <= k < |s| ensures IsSpace(s[k]) {
      assert s[k] == s[i..][k - i];
    }
  }

  lemma {:induction false} StartIsSuffix(s: string) returns (i: nat)
    ensures i <= |s| && TrimStart(s) == s[i..] && forall k | 0 <= k < i :: IsSpace(s[k])
  {
    hide IsSpace;
    i := 0;
    if s != "" && IsSpace(s[0]) {
      var later := StartIsSuffix(s[1..]);
      i := later + 1;
      assert forall k | 1 <= k < i :: s[k] == s[1..][k - 1];
    }
  }

  lemma {:induction false} EndIsPrefix(s: string) returns (n: nat)
    ensures n <= |s| && TrimEnd(s) == s[..n] && forall k | n <= k < |s| :: IsSpace(s[k])
  {
    hide IsSpace;
    n := |s|;
    if s != "" && IsSpace(s[|s| - 1]) {
      n := EndIsPrefix(s[..|s| - 1]);
    }
  }

  // ---------------------------------------------------------------- substrings

  predicate Contains(s: string, part: string) {
    exists i | 0 <= i <= |s| - |part| :: OccursAt(s, part, i)
  }

  predicate OccursAt(s: string, part: string, i: nat)
    requires i + |part| <= |s|
  {
    s[i..i + |part|] == part
  }

  lemma ContainsWithin(before: string, s: string, after: string, part: string)
    requires Contains(s, part)
    ensures Contains(before + s + after, part)
  {
    var i :| 0 <= i <= |s| - |part| && OccursAt(s, part, i);
    var whole := before + s + after;
    assert whole[|before| + i..|before| + i + |part|] == s[i..i + |part|];
    assert OccursAt(whole, part, |before| + i);
  }

  lemma OccurrenceCovers(s: string, part: string, i: nat, k: nat)
    requires i <= k < i + |part| <= |s| && OccursAt(s, part, i)
    ensures s[k] in part
  {
    assert s[i..i + |part|][k - i] == s[k];
  }

  /** A separator that does not occur in `part` keeps occurrences on one side. */
  lemma ContainsAcross(left: string, sep: char, right: string, part: string)
    requires sep !in part
    ensures Contains(left + [sep] + right, part) <==> Contains(left, part) || Contains(right, part)
  {
    var whole := left + [sep] + right;
    if Contains(left, part) {
      ContainsWithin("", left, [sep] + right, part);
      assert "" + left + ([sep] + right) == whole;
    }
    if Contains(right, part) {
      ContainsWithin(left + [sep], right, "", part);
      assert left + [sep] + right + "" == whole;
    }
    if i :| 0 <= i <= |whole| - |part| && OccursAt(whole, part, i) {
      if i + |part| <= |left| {
        assert left[i..i + |part|] == whole[i..i + |part|];
        assert OccursAt(left, part, i);
      } else if i > |left| {
        var j := i - |left| - 1;
        assert right[j..j + |part|] == whole[i..i + |part|];
        assert OccursAt(right, part, j);
      } else {
        OccurrenceCovers(whole, part, i, |left|);
      }
    }
  }

  /** Padding with a character that `part` neither starts nor ends with adds no occurrence. */
  lemma ContainsPadded(pad: char, s: string, part: string)
    requires part != "" && part[0] != pad && part[|part| - 1] != pad
    ensures Contains([pad] + s + [pad], part) <==> Contains(s, part)
  {
    var whole := [pad] + s + [pad];
    if Contains(s, part) {
      ContainsWithin([pad], s, [pad], part);
    }
    if i :| 0 <= i <= |whole| - |part| && OccursAt(whole, part, i) {
      assert whole[i..i + |part|][0] == whole[i] && whole[i..i + |part|][|part| - 1] == whole[i + |part| - 1];
      assert s[i - 1..i - 1 + |part|] == whole[i..i + |part|];
      assert OccursAt(s, part, i - 1);
    }
  }

  // ---------------------------------------------------------------- ASCII case

  function ToLower(c: char): char {
    if 'A' <= c <= 'Z' then (c as int + 32) as char else c
  }

  /** Rust's `eq_ignore_ascii_case`. */
  predicate EqIgnoreCase(a: string, b: string) {
    |a| == |b| && forall i | 0 <= i < |a| :: ToLower(a[i]) == ToLower(b[i])
  }

  // ---------------------------------------------------------------- decimal numbers

  const U32_BOUND := 0x1_0000_0000

  function Digit(d: nat): (c: char)
    requires d < 10
    ensures '0' <= c <= '9' && c as int - '0' as int == d
  {
    ('0' as int + d) as char
  }

  predicate AllDigits(s: string) {
    forall i | 0 <= i < |s| :: '0' <= s[i] <= '9'
  }

  /** `to_string` of an unsigned integer. */
  function Decimal(n: nat): (s: string)
    ensures s != "" && AllDigits(s)
  {
    if n < 10 then [Digit(n)] else Decimal(n / 10) + [Digit(n % 10)]
  }

  function DigitsValue(s: string): nat
    requires AllDigits(s)
  {
    if s == "" then 0
    else 10 * DigitsValue(s[..|s| - 1]) + (s[|s| - 1] as int - '0' as int)
  }

  /** `str::parse::<u32>`: an optional plus sign, at least one digit, no overflow. */
  function ParseU32(s: string): Option<nat> {
    var digits := if s != "" && s[0] == '+' then s[1..] else s;
    if digits != "" && AllDigits(digits) && DigitsValue(digits) < U32_BOUND
    then Some(DigitsValue(digits))
    else None
  }

  lemma {:induction false} DecimalValue(n: nat)
    ensures DigitsValue(Decimal(n)) == n
  {
    if n < 10 {
      assert Decimal(n)[..0] == "";
    } else {
      DecimalValue(n / 10);
      assert Decimal(n)[..|Decimal(n)| - 1] == Decimal(n / 10);
    }
  }

  /** Printing and parsing a 32-bit number gives the number back. */
  lemma DecimalParses(n: nat)
    requires n < U32_BOUND
    ensures ParseU32(Decimal(n)) == Some(n)
  {
    DecimalValue(n);
  }

  /** A plus sign is accepted, and a number that does not fit is not. */
  lemma ParsingLimits(n: nat)
    ensures ParseU32("+" + Decimal(n)) == ParseU32(Decimal(n))
    ensures n >= 0x1_0000_0000 ==> ParseU32(Decimal(n)) == None
  {
    DecimalValue(n);
    assert ("+" + Decimal(n))[1..] == Decimal(n);
  }

  /** The most significant digit comes first. */
  lemma DecimalShifts(n: nat, d: nat)
    requires d < 10 && n > 0
    ensures Decimal(10 * n + d) == Decimal(n) + Decimal(d)
  {
    assert (10 * n + d) / 10 == n && (10 * n + d) % 10 == d;
  }

  /** Different numbers print differently. */
  lemma DecimalInjective(m: nat, n: nat)
    requires Decimal(m) == Decimal(n)
    ensures m == n
  {
    DecimalValue(m);
    DecimalValue(n);
  }

  // ---------------------------------------------------------------- splitting

  /** `str::split`: one more part than there are separators. */
  function Split(s: string, sep: char): (parts: seq<string>)
    ensures |parts| > 0
  {
    if s == "" then [""]
    else
      var rest := Split(s[1..], sep);
      if s[0] == sep then [""] + rest else [[s[0]] + rest[0]] + rest[1..]
  }

  lemma {:induction false} SplitWithout(s: string, sep: char)
    requires sep !in s
    ensures Split(s, sep) == [s]
  {
    if s != "" {
      SplitWithout(s[1..], sep);
      assert s == [s[0]] + s[1..];
    }
  }

  lemma {:induction false} SplitAtOne(left: string, right: string, sep: char)
    requires sep !in left && sep !in right
    ensures Split(left + [sep] + right, sep) == [left, right]
  {
    var s := left + [sep] + right;
    if left == "" {
      assert s[1..] == right;
      SplitWithout(right, sep);
    } else {
      assert s[1..] == left[1..] + [sep] + right;
      SplitAtOne(left[1..], right, sep);
      assert left == [left[0]] + left[1..];
    }
  }

  // ---------------------------------------------------------------- lexicographic order

  /** Strict order on strings, code point by code point. */
  predicate Less(a: string, b: string) {
    b != "" && (a == "" || a[0] < b[0] || (a[0] == b[0] && Less(a[1..], b[1..])))
  }

  lemma {:induction false} LessTotal(a: string, b: string)
    ensures Less(a, b) || a == b || Less(b, a)
  {
    if a != "" && b != "" && a[0] == b[0] {
      LessTotal(a[1..], b[1..]);
      assert a == [a[0]] + a[1..] && b == [b[0]] + b[1..];
    }
  }

  lemma {:induction false} LessTransitive(a: string, b: string, c: string)
    requires Less(a, b) && Less(b, c)
    ensures Less(a, c)
  {
    if a != "" && a[0] == b[0] == c[0] {
      LessTransitive(a[1..], b[1..], c[1..]);
    }
  }

  lemma {:induction false} LessIrreflexive(a: string)
    ensures !Less(a, a)
  {
    if a != "" {
      LessIrreflexive(a[1..]);
    }
  }

  ghost predicate Ascending(q: seq<string>) {
    forall i, j | 0 <= i < j < |q| :: Less(q[i], q[j])
  }

  /** Inserts into a strictly ascending list, keeping one copy. */
  function Insert(x: string, q: seq<string>): (r: seq<string>)
    requires Ascending(q)
    ensures Ascending(r)
    ensures forall y :: y in r <==> y == x || y in q
  {
    if q == [] then [x]
    else if x == q[0] then q
    else if Less(x, q[0]) then
      assert forall j | 0 <= j < |q| :: Less(x, q[j]) by {
        forall j | 0 < j < |q| ensures Less(x, q[j]) { LessTransitive(x, q[0], q[j]); }
      }
      [x] + q
    else
      LessTotal(x, q[0]);
      var rest := Insert(x, q[1..]);
      assert forall y | y in rest :: Less(q[0], y);
      assert forall j | 0 <= j < |rest| :: rest[j] in rest;
      [q[0]] + rest
  }

  /** `sort_unstable` followed by `dedup`. */
  function SortDedup(v: seq<string>): (r: seq<string>)
    ensures Ascending(r)
    ensures forall y :: y in r <==> y in v
  {
    if v == [] then [] else Insert(v[0], SortDedup(v[1..]))
  }

  /** A strictly ascending list is determined by its elements. */
  lemma {:induction false} AscendingUnique(p: seq<string>, q: seq<string>)
    requires Ascending(p) && Ascending(q)
    requires forall y :: y in p <==> y in q
    ensures p == q
  {
    assert p != [] ==> p[0] in p;
    assert q != [] ==> q[0] in q;
    if p != [] && q != [] {
      FirstIsLeast(p, q[0]);
      FirstIsLeast(q, p[0]);
      if p[0] != q[0] {
        LessTransitive(p[0], q[0], p[0]);
        LessIrreflexive(p[0]);
      }
      forall y ensures y in p[1..] <==> y in q[1..] {
        LessIrreflexive(p[0]);
        assert y in p <==> y == p[0] || y in p[1..];
        assert y in q <==> y == q[0] || y in q[1..];
      }
      AscendingUnique(p[1..], q[1..]);
      assert p == [p[0]] + p[1..] && q == [q[0]] + q[1..];
    }
  }

  lemma FirstIsLeast(q: seq<string>, y: string)
    requires Ascending(q) && y in q
    ensures y == q[0] || Less(q[0], y)
  {
  }
}
