/** Outcomes shared by every model: an optional value, and a value or a raised error. */
module Outcomes {
  datatype Option<+T> = None | Some(value: T)

  datatype Result<+T, +E> = Ok(value: T) | Err(error: E)
}

/** The string operations the repository composes keys with: split, join, substring
    search and decimal rendering, each with the law its callers rely on. */
module Text {
  import opened Outcomes

  lemma Regroup<T>(a: seq<T>, b: seq<T>, c: seq<T>)
    ensures a + b + c == a + (b + c)
  {
  }

  lemma Unsnoc<T>(s: seq<T>)
    requires s != []
    ensures s[..|s| - 1] + [s[|s| - 1]] == s
  {
  }

  lemma Snoc<T>(s: seq<T>, x: T)
    ensures (s + [x])[..|s|] == s && (s + [x])[|s|] == x && |s + [x]| == |s| + 1
  {
  }

  lemma Uncons<T>(s: seq<T>)
    requires s != []
    ensures [s[0]] + s[1..] == s
  {
  }

  /** Position of the first `c` in `s`, or `|s|` when there is none. */
  function IndexOf(s: string, c: char): (i: nat)
    ensures i <= |s| && (i < |s| ==> s[i] == c)
    ensures i == |s| <==> c !in s
  {
    if s == "" || s[0] == c then 0 else
      assert s == [s[0]] + s[1..];
      1 + IndexOf(s[1..], c)
  }

  lemma {:induction false} NoneBeforeIndexOf(s: string, c: char)
    ensures c !in s[..IndexOf(s, c)]
  {
    if s != "" && s[0] != c {
      NoneBeforeIndexOf(s[1..], c);
      assert s[..IndexOf(s, c)] == [s[0]] + s[1..][..IndexOf(s[1..], c)];
    }
  }

  /** Where the first `c` of a concatenation lies when the left part has none. */
  lemma {:induction false} IndexOfAfter(left: string, c: char, right: string)
    requires c !in left
    ensures IndexOf(left + [c] + right, c) == |left|
  {
    var s := left + [c] + right;
    if left != "" {
      IndexOfAfter(left[1..], c, right);
      assert s[1..] == left[1..] + [c] + right;
    }
  }

  function Split(s: string, c: char): (parts: seq<string>)
    ensures |parts| >= 1
    decreases |s|
  {
    var i := IndexOf(s, c);
    if i == |s| then [s] else [s[..i]] + Split(s[i + 1..], c)
  }

  function Join(parts: seq<string>, sep: string): string
  {
    if |parts| == 0 then ""
    else if |parts| == 1 then parts[0]
    else parts[0] + sep + Join(parts[1..], sep)
  }

  lemma {:induction false} JoinSplit(s: string, c: char)
    ensures Join(Split(s, c), [c]) == s
    decreases |s|
  {
    hide IndexOf;
    var i := IndexOf(s, c);
    if i < |s| {
      JoinSplit(s[i + 1..], c);
      JoinCons(s[..i], Split(s[i + 1..], c), [c]);
      assert Split(s, c) == [s[..i]] + Split(s[i + 1..], c);
      hide *;
      assert s == s[..i] + [s[i]] + s[i + 1..];
    }
  }

  lemma JoinCons(first: string, rest: seq<string>, sep: string)
    requires |rest| > 0
    ensures Join([first] + rest, sep) == first + sep + Join(rest, sep)
  {
    assert ([first] + rest)[1..] == rest;
  }

  /** Splitting `left + c + right` when `left` has no `c` peels `left` off. */
  lemma SplitFirst(left: string, c: char, right: string)
    requires c !in left
    ensures Split(left + [c] + right, c) == [left] + Split(right, c)
  {
    IndexOfAfter(left, c, right);
    var s := left + [c] + right;
    assert s[..|left|] == left && s[|left| + 1..] == right;
  }

  lemma SplitNone(s: string, c: char)
    requires c !in s
    ensures Split(s, c) == [s]
  {
  }

  lemma SplitPair(left: string, c: char, right: string)
    requires c !in left && c !in right
    ensures Split(left + [c] + right, c) == [left, right]
  {
    hide Split;
    SplitFirst(left, c, right);
    SplitNone(right, c);
  }

  /** Cut at its first separator, a string determines both parts. */
  lemma SameCut(left: string, c: char, right: string, left': string, right': string)
    requires c !in left && c !in left'
    ensures left + [c] + right == left' + [c] + right' <==> left == left' && right == right'
  {
    var s, s' := left + [c] + right, left' + [c] + right';
    IndexOfAfter(left, c, right);
    IndexOfAfter(left', c, right');
    hide IndexOf;
    assert s[..|left|] == left && s'[..|left'|] == left';
    assert s[|left| + 1..] == right && s'[|left'| + 1..] == right';
  }

  lemma JoinPeel(first: string, rest: seq<string>, k: nat, sep: string)
    requires 0 < k <= |rest|
    ensures Join(([first] + rest)[..k + 1], sep) == first + sep + Join(rest[..k], sep)
  {
    assert ([first] + rest)[..k + 1] == [first] + rest[..k];
    JoinCons(first, rest[..k], sep);
  }

  lemma {:induction false} LeadingSegmentsArePrefixes(s: string, c: char, k: nat)
    requires 0 < k < |Split(s, c)|
    ensures Join(Split(s, c)[..k], [c]) + [c] <= s
    decreases |s|
  {
    hide IndexOf, Join;
    var i := IndexOf(s, c);
    if k == 1 {
      JoinOne(s[..i], Split(s[i + 1..], c), [c]);
      assert s[..i + 1] == s[..i] + [c];
    } else {
      var rest := Split(s[i + 1..], c);
      LeadingSegmentsArePrefixes(s[i + 1..], c, k - 1);
      JoinPeel(s[..i], rest, k - 1, [c]);
      PrefixAfter(s, i, c, Join(rest[..k - 1], [c]));
    }
  }

  lemma JoinOne(first: string, rest: seq<string>, sep: string)
    ensures Join(([first] + rest)[..1], sep) == first
  {
    assert ([first] + rest)[..1] == [first];
  }

  lemma PrefixAfter(s: string, i: nat, c: char, p: string)
    requires i < |s| && s[i] == c && p + [c] <= s[i + 1..]
    ensures s[..i] + [c] + p + [c] <= s
  {
    assert s == s[..i] + [c] + s[i + 1..];
  }

  lemma {:induction false} IndexOfIsFirst(s: string, c: char, j: nat)
    requires j < |s| && s[j] == c
    ensures IndexOf(s, c) <= j
  {
    if s[0] != c {
      IndexOfIsFirst(s[1..], c, j - 1);
    }
  }

  /** A prefix that ends before a separator starts with the whole first segment. */
  lemma PrefixPeel(s: string, c: char, p: string)
    requires p + [c] <= s
    ensures var i := IndexOf(s, c); i <= |p| && (|p| == i ==> p == s[..i])
    ensures var i := IndexOf(s, c);
            |p| > i ==> p == s[..i] + [c] + p[i + 1..] && p[i + 1..] + [c] <= s[i + 1..]
  {
    var i := IndexOf(s, c);
    assert s[..|p| + 1] == p + [c];
    assert s[|p|] == c && s[..|p|] == p;
    IndexOfIsFirst(s, c, |p|);
    if |p| > i {
      assert p[..i] == s[..i] && p[i] == c;
      assert s[i + 1..][..|p| - i] == p[i + 1..] + [c];
    }
  }

  lemma {:induction false} PrefixIsLeadingSegments(s: string, c: char, p: string) returns (k: nat)
    requires p + [c] <= s
    ensures 0 < k < |Split(s, c)| && p == Join(Split(s, c)[..k], [c])
    decreases |s|
  {
    hide IndexOf, Join;
    var i := IndexOf(s, c);
    PrefixPeel(s, c, p);
    if |p| == i {
      k := 1;
      JoinOne(s[..i], Split(s[i + 1..], c), [c]);
    } else {
      var j := PrefixIsLeadingSegments(s[i + 1..], c, p[i + 1..]);
      JoinPeel(s[..i], Split(s[i + 1..], c), j, [c]);
      k := j + 1;
    }
  }

  /** The proper leading groups of segments are exactly the prefixes that end before a separator. */
  lemma LeadingSegments(s: string, c: char, p: string)
    ensures p + [c] <= s <==> exists k :: 0 < k < |Split(s, c)| && p == Join(Split(s, c)[..k], [c])
  {
    if p + [c] <= s {
      var k := PrefixIsLeadingSegments(s, c, p);
    }
    if k :| 0 < k < |Split(s, c)| && p == Join(Split(s, c)[..k], [c]) {
      LeadingSegmentsArePrefixes(s, c, k);
    }
  }

  /** A longer group of leading segments is a longer string. */
  lemma {:induction false} JoinGrows(parts: seq<string>, j: nat, k: nat, sep: string)
    requires 0 < j < k <= |parts| && |sep| > 0
    ensures |Join(parts[..j], sep)| < |Join(parts[..k], sep)|
    decreases j
  {
    assert parts[..j][1..] == parts[1..][..j - 1];
    assert parts[..k][1..] == parts[1..][..k - 1];
    if j > 1 {
      JoinGrows(parts[1..], j - 1, k - 1, sep);
    }
  }

  ghost predicate OccursAt(needle: string, s: string, i: int)
  {
    0 <= i <= |s| - |needle| && s[i..i + |needle|] == needle
  }

  ghost predicate Contains(s: string, needle: string)
  {
    exists i :: OccursAt(needle, s, i)
  }

  /** `s` with every `from` character replaced by `to`. */
  function Replace(s: string, from: char, to: char): (r: string)
    ensures |r| == |s|
    ensures forall k :: 0 <= k < |s| ==> r[k] == (if s[k] == from then to else s[k])
  {
    seq(|s|, k requires 0 <= k < |s| => if s[k] == from then to else s[k])
  }

  /** The characters Python's `str.isspace` accepts, which `strip` and `\s` remove. */
  predicate IsWhitespace(c: char)
  {
    var n := c as int;
    9 <= n <= 13 || 28 <= n <= 32 || n == 0x85 || n == 0xA0 || n == 0x1680 ||
    0x2000 <= n <= 0x200A || n == 0x2028 || n == 0x2029 || n == 0x202F || n == 0x205F || n == 0x3000
  }

  function StripLeft(s: string): (r: string)
    ensures |r| <= |s| && r == s[|s| - |r|..]
    ensures forall j :: 0 <= j < |s| - |r| ==> IsWhitespace(s[j])
    ensures r != "" ==> !IsWhitespace(r[0])
  {
    if s == "" || !IsWhitespace(s[0]) then s else StripLeft(s[1..])
  }

  function StripRight(s: string): (r: string)
    ensures r <= s && (r != "" ==> !IsWhitespace(r[|r| - 1]))
    ensures forall j :: |r| <= j < |s| ==> IsWhitespace(s[j])
    ensures s != "" && !IsWhitespace(s[|s| - 1]) ==> r == s
  {
    if s == "" || !IsWhitespace(s[|s| - 1]) then s else StripRight(s[..|s| - 1])
  }

  function Strip(s: string): string
  {
    StripRight(StripLeft(s))
  }

  lemma StripTrims(s: string)
    ensures var r := Strip(s); r != "" ==> !IsWhitespace(r[0]) && !IsWhitespace(r[|r| - 1])
  {
    var left := StripLeft(s);
    var r := StripRight(left);
    assert r != "" ==> r[0] == left[0];
  }

  /** `t` is `s` without the white space around it, and something is left. */
  ghost predicate TrimmedForm(s: string, t: string)
  {
    && t != "" && !IsWhitespace(t[0]) && !IsWhitespace(t[|t| - 1])
    && exists i :: Encloses(s, t, i)
  }

  /** `t` lies at `i` in `s` with only white space around it. */
  ghost predicate Encloses(s: string, t: string, i: int)
  {
    OccursAt(t, s, i) && (forall k :: 0 <= k < i ==> IsWhitespace(s[k])) &&
    forall k :: i + |t| <= k < |s| ==> IsWhitespace(s[k])
  }

  lemma StripEncloses(s: string)
    ensures Encloses(s, Strip(s), |s| - |StripLeft(s)|)
  {
    var left := StripLeft(s);
    var r := StripRight(left);
    hide StripLeft, StripRight, IsWhitespace;
    PieceOfSuffix(s, left, r);
    TailOfSuffix(s, left, |r|);
  }

  lemma PieceOfSuffix(s: string, left: string, r: string)
    requires |left| <= |s| && left == s[|s| - |left|..] && r <= left
    ensures OccursAt(r, s, |s| - |left|)
  {
    assert forall k :: 0 <= k < |r| ==> r[k] == left[k] == s[|s| - |left| + k];
  }

  lemma TailOfSuffix(s: string, left: string, n: nat)
    requires |left| <= |s| && left == s[|s| - |left|..] && n <= |left|
    requires forall j :: n <= j < |left| ==> IsWhitespace(left[j])
    ensures forall k :: |s| - |left| + n <= k < |s| ==> IsWhitespace(s[k])
  {
    hide IsWhitespace;
    assert forall k :: |s| - |left| <= k < |s| ==> s[k] == left[k - (|s| - |left|)];
  }

  /** Stripping gives the trimmed form, and there is no other. */
  lemma StripIsTrimmedForm(s: string, t: string)
    ensures TrimmedForm(s, t) <==> t == Strip(s) && t != ""
  {
    var r := Strip(s);
    var j := |s| - |StripLeft(s)|;
    StripEncloses(s);
    StripTrims(s);
    hide Strip, StripLeft;
    if TrimmedForm(s, t) {
      var i :| Encloses(s, t, i);
      EnclosedAlike(s, t, i, r, j);
    }
  }

  lemma EnclosedAlike(s: string, t: string, i: int, r: string, j: int)
    requires Encloses(s, t, i) && t != "" && !IsWhitespace(t[0]) && !IsWhitespace(t[|t| - 1])
    requires Encloses(s, r, j) && (r != "" ==> !IsWhitespace(r[0]) && !IsWhitespace(r[|r| - 1]))
    ensures t == r
  {
    hide IsWhitespace;
    assert s[i] == t[0] && s[i + |t| - 1] == t[|t| - 1];
    assert r != "" ==> s[j] == r[0] && s[j + |r| - 1] == r[|r| - 1];
    assert r != "";
    assert i == j && |t| == |r|;
  }

  /** Blank text is nothing but white space. */
  predicate IsBlank(s: string): (b: bool)
    ensures b <==> forall k :: 0 <= k < |s| ==> IsWhitespace(s[k])
  {
    StripEncloses(s);
    StripTrims(s);
    assert Strip(s) != "" ==> s[|s| - |StripLeft(s)|] == Strip(s)[0];
    Strip(s) == ""
  }

  /** The decimal rendering of a counter. */
  function Decimal(n: nat): (s: string)
    ensures |s| > 0 && forall k :: 0 <= k < |s| ==> '0' <= s[k] <= '9'
  {
    var digit := "0123456789"[n % 10];
    if n < 10 then [digit] else Decimal(n / 10) + [digit]
  }

  ghost function DecimalValue(s: string): int
  {
    if s == "" then 0 else DecimalValue(s[..|s| - 1]) * 10 + (s[|s| - 1] as int - '0' as int)
  }

  lemma {:induction false} DecimalRoundTrip(n: nat)
    ensures DecimalValue(Decimal(n)) == n
  {
    var d := n % 10;
    assert "0123456789"[d] as int - '0' as int == d;
    if n >= 10 {
      DecimalRoundTrip(n / 10);
      assert Decimal(n)[..|Decimal(n)| - 1] == Decimal(n / 10);
    } else {
      assert Decimal(n)[..0] == "";
      assert DecimalValue("") == 0;
    }
  }

  lemma DecimalInjective(m: nat, n: nat)
    ensures Decimal(m) == Decimal(n) ==> m == n
  {
    DecimalRoundTrip(m);
    DecimalRoundTrip(n);
  }
}
