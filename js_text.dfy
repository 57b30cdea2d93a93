/**
 * The JavaScript string primitives the miner is built from: `String.prototype.trim`,
 * `split` on a fixed string, `split(/[ \t]+/)`, the `/\.rb$/` suffix test and the
 * string-to-number coercion applied to git's timestamp field.
 */
module JsText {
  import opened Wrappers

  // ---------------------------------------------------------------------------
  // trim

  /** The characters `trim` removes: ECMAScript WhiteSpace and LineTerminator. */
  predicate IsWhite(c: char) {
    || c == '\t' || c == '\n' || c == '\U{000B}' || c == '\U{000C}' || c == '\r' || c == ' '
    || c == '\U{00A0}' || c == '\U{1680}' || ('\U{2000}' <= c <= '\U{200A}')
    || c == '\U{2028}' || c == '\U{2029}' || c == '\U{202F}' || c == '\U{205F}'
    || c == '\U{3000}' || c == '\U{FEFF}'
  }

  predicate AllWhite(s: string) {
    forall i :: 0 <= i < |s| ==> IsWhite(s[i])
  }

  /** A string `trim` leaves as it is: empty, or non-white at both ends. */
  predicate IsTrimmed(s: string) {
    s == [] || (!IsWhite(s[0]) && !IsWhite(s[|s| - 1]))
  }

  function TrimStart(s: string): (r: string)
    ensures |r| <= |s|
    ensures r == [] || !IsWhite(r[0])
  {
    if s != [] && IsWhite(s[0]) then TrimStart(s[1..]) else s
  }

  function TrimEnd(s: string): (r: string)
    ensures |r| <= |s| && r == s[..|r|]
    ensures r == [] || !IsWhite(r[|r| - 1])
  {
    if s != [] && IsWhite(s[|s| - 1]) then TrimEnd(s[..|s| - 1]) else s
  }

  /** `s.trim()`: the longest middle slice of `s` with white space only around it. */
  function Trim(s: string): (r: string)
    ensures IsTrimmed(r) && |r| <= |s|
  {
    TrimEnd(TrimStart(s))
  }

  lemma {:induction false} TrimStartSkip(w: string, t: string)
    requires AllWhite(w)
    ensures TrimStart(w + t) == TrimStart(t)
  {
    if w != [] {
      assert (w + t)[0] == w[0] && IsWhite(w[0]);
      assert (w + t)[1..] == w[1..] + t;
      TrimStartSkip(w[1..], t);
    } else {
      assert w + t == t;
    }
  }

  lemma {:induction false} TrimEndSkip(t: string, w: string)
    requires AllWhite(w)
    ensures TrimEnd(t + w) == TrimEnd(t)
  {
    if w != [] {
      assert (t + w)[|t + w| - 1] == w[|w| - 1] && IsWhite(w[|w| - 1]);
      assert (t + w)[..|t + w| - 1] == t + w[..|w| - 1];
      TrimEndSkip(t, w[..|w| - 1]);
    } else {
      assert t + w == t;
    }
  }

  /** Trimming a trimmed text framed by white space gives back the text. */
  lemma TrimWrapped(w1: string, a: string, w2: string)
    requires AllWhite(w1) && AllWhite(w2) && IsTrimmed(a)
    ensures Trim(w1 + a + w2) == a
  {
    assert w1 + a + w2 == w1 + (a + w2);
    TrimStartSkip(w1, a + w2);
    if a == [] {
      assert a + w2 == w2;
      TrimStartSkip(w2, []);
      assert w2 + [] == w2;
    } else {
      assert TrimStart(a + w2) == a + w2;
      TrimEndSkip(a, w2);
    }
  }

  lemma {:induction false} TrimStartAppendWhite(a: string, w: string)
    requires AllWhite(w)
    ensures TrimStart(a + w) == if TrimStart(a) == [] then [] else TrimStart(a) + w
  {
    if a == [] {
      assert a + w == w + [];
      TrimStartSkip(w, []);
    } else if IsWhite(a[0]) {
      assert (a + w)[0] == a[0];
      assert (a + w)[1..] == a[1..] + w;
      TrimStartAppendWhite(a[1..], w);
    } else {
      assert (a + w)[0] == a[0];
    }
  }

  /** White space around a text does not change what `trim` returns. */
  lemma TrimFramed(w1: string, a: string, w2: string)
    requires AllWhite(w1) && AllWhite(w2)
    ensures Trim(w1 + a + w2) == Trim(a)
  {
    assert w1 + a + w2 == w1 + (a + w2);
    TrimStartSkip(w1, a + w2);
    TrimStartAppendWhite(a, w2);
    if TrimStart(a) != [] {
      TrimEndSkip(TrimStart(a), w2);
    }
  }

  // ---------------------------------------------------------------------------
  // occurrences of a fixed string

  predicate MatchAt(s: string, p: string, i: nat) {
    i + |p| <= |s| && s[i..i + |p|] == p
  }

  /** `p` occurs nowhere in `s` (`s.indexOf(p) === -1`). */
  predicate Free(s: string, p: string) {
    forall i: nat :: i <= |s| ==> !MatchAt(s, p, i)
  }

  /** The first occurrence of `p` in `s` at or after `i` (`s.indexOf(p, i)`). */
  function FindFrom(s: string, p: string, i: nat): (r: Option<nat>)
    requires i <= |s|
    decreases |s| - i
    ensures r.Some? ==> i <= r.value && r.value + |p| <= |s|
  {
    if i + |p| > |s| then None
    else if MatchAt(s, p, i) then Some(i)
    else FindFrom(s, p, i + 1)
  }

  /** `FindFrom` answers the first occurrence, and `None` only when there is none. */
  lemma {:induction false} FindFromFacts(s: string, p: string, i: nat)
    requires i <= |s|
    decreases |s| - i
    ensures var r := FindFrom(s, p, i);
      && (r.Some? ==> MatchAt(s, p, r.value) && forall k: nat :: i <= k < r.value ==> !MatchAt(s, p, k))
      && (r.None? ==> forall k: nat :: i <= k ==> !MatchAt(s, p, k))
  {
    if i + |p| <= |s| && !MatchAt(s, p, i) {
      FindFromFacts(s, p, i + 1);
    }
  }

  /** The first occurrence at or after `i` is at `j`. */
  lemma {:induction false} FindFromAt(s: string, p: string, i: nat, j: nat)
    requires i <= j <= |s| && MatchAt(s, p, j)
    requires forall k: nat :: i <= k < j ==> !MatchAt(s, p, k)
    ensures FindFrom(s, p, i) == Some(j)
    decreases j - i
  {
    if i < j {
      FindFromAt(s, p, i + 1, j);
    }
  }

  /** No occurrence at or after `i`. */
  lemma {:induction false} FindFromNone(s: string, p: string, i: nat)
    requires p != [] && i <= |s| && forall k: nat :: i <= k <= |s| ==> !MatchAt(s, p, k)
    ensures FindFrom(s, p, i) == None
    decreases |s| - i
  {
    if i + |p| <= |s| {
      FindFromNone(s, p, i + 1);
    }
  }

  /** `s.split(sep)` for a non-empty separator string. */
  function Split(s: string, sep: string): (parts: seq<string>)
    requires sep != []
    ensures |parts| >= 1
    decreases |s|
  {
    match FindFrom(s, sep, 0)
    case None => [s]
    case Some(k) => [s[..k]] + Split(s[k + |sep|..], sep)
  }

  /** No piece of a split contains the separator. */
  lemma {:induction false} SplitPartsFree(s: string, sep: string)
    requires sep != []
    ensures forall k :: 0 <= k < |Split(s, sep)| ==> Free(Split(s, sep)[k], sep)
    decreases |s|
  {
    FindFromFacts(s, sep, 0);
    match FindFrom(s, sep, 0)
    case None =>
    case Some(k) =>
      var head := s[..k];
      forall i: nat | i <= |head| ensures !MatchAt(head, sep, i) {
        if i + |sep| <= |head| {
          assert s[i..i + |sep|] == head[i..i + |sep|];
          assert i < k && !MatchAt(s, sep, i);
        }
      }
      SplitPartsFree(s[k + |sep|..], sep);
  }

  /** `parts.join(sep)`. */
  function Join(parts: seq<string>, sep: string): string
    requires |parts| >= 1
  {
    if |parts| == 1 then parts[0] else parts[0] + sep + Join(parts[1..], sep)
  }

  lemma {:induction false} JoinFirst(parts: seq<string>, sep: string)
    requires |parts| >= 1 && parts[0] != []
    ensures |Join(parts, sep)| > 0 && Join(parts, sep)[0] == parts[0][0]
  {
  }

  lemma {:induction false} JoinLast(parts: seq<string>, sep: string)
    requires |parts| >= 1 && parts[|parts| - 1] != []
    ensures var s, l := Join(parts, sep), parts[|parts| - 1]; |s| > 0 && s[|s| - 1] == l[|l| - 1]
  {
    if |parts| > 1 {
      JoinLast(parts[1..], sep);
    }
  }

  lemma JoinCons(a: string, t: seq<string>, sep: string)
    requires |t| >= 1
    ensures Join([a] + t, sep) == a + sep + Join(t, sep)
  {
    assert ([a] + t)[1..] == t;
  }

  /** Splitting and joining again gives back the original text. */
  lemma {:induction false} JoinSplit(s: string, sep: string)
    requires sep != []
    ensures Join(Split(s, sep), sep) == s
    decreases |s|
  {
    match FindFrom(s, sep, 0)
    case None =>
    case Some(k) =>
      var rest := s[k + |sep|..];
      assert Split(s, sep) == [s[..k]] + Split(rest, sep);
      JoinSplit(rest, sep);
      JoinCons(s[..k], Split(rest, sep), sep);
      assert s == s[..k] + sep + rest by {
        FindFromFacts(s, sep, 0);
        assert s[k..k + |sep|] == sep;
      }
  }

  function Repeat(c: char, n: nat): (r: string)
    ensures |r| == n && forall i :: 0 <= i < n ==> r[i] == c
  {
    seq(n, _ => c)
  }

  /** A text that does not contain `c` contains no run of `c`. */
  lemma FreeOfMissingChar(s: string, c: char, n: nat)
    requires n >= 1 && forall i :: 0 <= i < |s| ==> s[i] != c
    ensures Free(s, Repeat(c, n))
  {
    var p := Repeat(c, n);
    forall i: nat | i <= |s| ensures !MatchAt(s, p, i) {
      assert i + n <= |s| ==> s[i..i + n][0] == s[i];
    }
  }

  /** Gluing two run-free texts with a character other than `c` creates no run of `c`. */
  lemma FreeSplice(a: string, x: char, b: string, c: char, n: nat)
    requires n >= 1 && x != c
    requires Free(a, Repeat(c, n)) && Free(b, Repeat(c, n))
    ensures Free(a + [x] + b, Repeat(c, n))
  {
    var p, s := Repeat(c, n), a + [x] + b;
    forall i: nat | i <= |s| ensures !MatchAt(s, p, i) {
      if i + n <= |a| {
        assert s[i..i + n] == a[i..i + n];
        assert !MatchAt(a, p, i);
      } else if i > |a| {
        assert i + n <= |s| ==> s[i..i + n] == b[i - |a| - 1..i - |a| - 1 + n];
        assert !MatchAt(b, p, i - |a| - 1);
      } else {
        assert i + n <= |s| ==> s[i..i + n][|a| - i] == x;
      }
    }
  }

  /** A text without `c` in front of a run-free text leaves it run-free. */
  lemma FreeAfterMissing(a: string, b: string, c: char, n: nat)
    requires n >= 1 && forall i :: 0 <= i < |a| ==> a[i] != c
    requires Free(b, Repeat(c, n))
    ensures Free(a + b, Repeat(c, n))
  {
    var p, s := Repeat(c, n), a + b;
    forall i: nat | i <= |s| ensures !MatchAt(s, p, i) {
      if i < |a| {
        assert i + n <= |s| ==> s[i..i + n][0] == a[i];
      } else {
        assert i + n <= |s| ==> s[i..i + n] == b[i - |a|..i - |a| + n];
        assert !MatchAt(b, p, i - |a|);
      }
    }
  }

  /** The lines of a run-free list, joined with a character other than `c`, are run-free. */
  lemma {:induction false} FreeJoin(parts: seq<string>, x: char, c: char, n: nat)
    requires n >= 1 && x != c && |parts| >= 1
    requires forall k :: 0 <= k < |parts| ==> Free(parts[k], Repeat(c, n))
    ensures Free(Join(parts, [x]), Repeat(c, n))
  {
    if |parts| > 1 {
      FreeJoin(parts[1..], x, c, n);
      FreeSplice(parts[0], x, Join(parts[1..], [x]), c, n);
    }
  }

  /**
   * Splitting on a run of `c` stops at the first separator when the text before it
   * holds no separator and does not itself end in `c`.
   */
  lemma SplitStep(a: string, b: string, c: char, n: nat)
    requires n >= 1
    requires Free(a, Repeat(c, n)) && (a == [] || a[|a| - 1] != c)
    ensures Split(a + Repeat(c, n) + b, Repeat(c, n)) == [a] + Split(b, Repeat(c, n))
  {
    var p, s := Repeat(c, n), a + Repeat(c, n) + b;
    assert s[|a|..|a| + n] == p;
    assert MatchAt(s, p, |a|);
    forall k: nat | k < |a| ensures !MatchAt(s, p, k) {
      if k + n <= |a| {
        assert s[k..k + n] == a[k..k + n];
        assert !MatchAt(a, p, k);
      } else {
        assert k + n <= |s| ==> s[k..k + n][|a| - 1 - k] == a[|a| - 1];
      }
    }
    FindFromAt(s, p, 0, |a|);
    assert s[..|a|] == a;
    assert s[|a| + n..] == b;
  }

  lemma SplitWhole(b: string, sep: string)
    requires sep != [] && Free(b, sep)
    ensures Split(b, sep) == [b]
  {
    FindFromNone(b, sep, 0);
  }

  /**
   * Splitting a join on a run of `c` gives back the parts, provided no part contains the
   * separator and no part but the last ends in `c`.
   */
  lemma {:induction false} SplitJoin(parts: seq<string>, c: char, n: nat)
    requires n >= 1 && |parts| >= 1
    requires forall k :: 0 <= k < |parts| ==> Free(parts[k], Repeat(c, n))
    requires forall k :: 0 <= k < |parts| - 1 ==> parts[k] == [] || parts[k][|parts[k]| - 1] != c
    ensures Split(Join(parts, Repeat(c, n)), Repeat(c, n)) == parts
  {
    var sep := Repeat(c, n);
    if |parts| == 1 {
      SplitWhole(parts[0], sep);
    } else {
      SplitJoin(parts[1..], c, n);
      SplitStep(parts[0], Join(parts[1..], sep), c, n);
      assert Join(parts, sep) == parts[0] + sep + Join(parts[1..], sep);
      assert parts == [parts[0]] + parts[1..];
    }
  }

  /** `SplitJoin` for a one-character separator such as the line break. */
  lemma SplitJoinChar(parts: seq<string>, c: char)
    requires |parts| >= 1
    requires forall k :: 0 <= k < |parts| ==> Free(parts[k], [c])
    requires forall k :: 0 <= k < |parts| - 1 ==> parts[k] == [] || parts[k][|parts[k]| - 1] != c
    ensures Split(Join(parts, [c]), [c]) == parts
  {
    assert Repeat(c, 1) == [c];
    SplitJoin(parts, c, 1);
  }

  // ---------------------------------------------------------------------------
  // split(/[ \t]+/)

  predicate IsBlank(c: char) {
    c == ' ' || c == '\t'
  }

  predicate NoBlank(s: string) {
    forall i :: 0 <= i < |s| ==> !IsBlank(s[i])
  }

  /** The position of the first blank at or after `i`, or `|s|`. */
  function FirstBlank(s: string, i: nat): (r: nat)
    requires i <= |s|
    decreases |s| - i
    ensures i <= r <= |s|
    ensures r < |s| ==> IsBlank(s[r])
  {
    if i == |s| || IsBlank(s[i]) then i else FirstBlank(s, i + 1)
  }

  function SkipBlanks(s: string): (r: string)
    ensures |r| <= |s|
    ensures s != [] && IsBlank(s[0]) ==> |r| < |s|
  {
    if s != [] && IsBlank(s[0]) then SkipBlanks(s[1..]) else s
  }

  /**
   * `s.split(/[ \t]+/)`: the pieces between maximal runs of spaces and tabs; a blank
   * run at either end yields an empty first or last piece.
   */
  function SplitBlanks(s: string): (fields: seq<string>)
    ensures |fields| >= 1
    decreases |s|
  {
    var i := FirstBlank(s, 0);
    if i == |s| then [s] else [s[..i]] + SplitBlanks(SkipBlanks(s[i..]))
  }

  /** Scanning from `i` finds no blank before position `j` when there is none. */
  lemma {:induction false} FirstBlankFrom(s: string, i: nat, j: nat)
    requires i <= j <= |s| && forall k :: i <= k < j ==> !IsBlank(s[k])
    requires j == |s| || IsBlank(s[j])
    ensures FirstBlank(s, i) == j
    decreases j - i
  {
    if i < j {
      FirstBlankFrom(s, i + 1, j);
    }
  }

  lemma SplitBlanksWhole(a: string)
    requires NoBlank(a)
    ensures SplitBlanks(a) == [a]
  {
    FirstBlankFrom(a, 0, |a|);
  }

  lemma FirstBlankAfter(a: string, x: char, rest: string)
    requires NoBlank(a) && IsBlank(x)
    ensures FirstBlank(a + [x] + rest, 0) == |a|
  {
    var s := a + [x] + rest;
    assert s[|a|] == x;
    assert forall k :: 0 <= k < |a| ==> s[k] == a[k];
    FirstBlankFrom(s, 0, |a|);
  }

  lemma SkipOneBlank(x: char, rest: string)
    requires IsBlank(x) && (rest == [] || !IsBlank(rest[0]))
    ensures SkipBlanks([x] + rest) == rest
  {
    assert ([x] + rest)[1..] == rest;
  }

  lemma SplitBlanksStep(a: string, x: char, rest: string)
    requires NoBlank(a) && IsBlank(x) && (rest == [] || !IsBlank(rest[0]))
    ensures SplitBlanks(a + [x] + rest) == [a] + SplitBlanks(rest)
  {
    var s := a + [x] + rest;
    FirstBlankAfter(a, x, rest);
    assert s[|a|..] == [x] + rest;
    SkipOneBlank(x, rest);
    assert s[..|a|] == a;
  }

  // ---------------------------------------------------------------------------
  // suffix test and numbers

  /** `s.search(/<suffix>$/) !== -1` for a literal suffix. */
  predicate EndsWith(s: string, suffix: string) {
    |suffix| <= |s| && s[|s| - |suffix|..] == suffix
  }

  predicate IsDigit(c: char) {
    '0' <= c <= '9'
  }

  predicate AllDigits(s: string) {
    forall i :: 0 <= i < |s| ==> IsDigit(s[i])
  }

  function DigitsValue(s: string): nat
    requires AllDigits(s)
  {
    if s == [] then 0 else DigitsValue(s[..|s| - 1]) * 10 + (s[|s| - 1] as int - '0' as int)
  }

  /** The decimal rendering of `n`, as `%at` prints a timestamp. */
  function Decimal(n: nat): (s: string)
    ensures |s| >= 1 && AllDigits(s)
  {
    if n < 10 then [('0' as int + n) as char] else Decimal(n / 10) + [('0' as int + n % 10) as char]
  }

  lemma {:induction false} DecimalValue(n: nat)
    ensures DigitsValue(Decimal(n)) == n
  {
    if n >= 10 {
      var s := Decimal(n);
      assert s[..|s| - 1] == Decimal(n / 10);
      DecimalValue(n / 10);
    }
  }

  /**
   * `Number(s)` on a string: white space around it is ignored, the empty string is 0, and an
   * optionally signed run of decimal digits is its value; NaN is `None`.
   */
  function ToNumber(s: string): (r: Option<int>)
  {
    var t := Trim(s);
    if t == [] then Some(0)
    else if AllDigits(t) then Some(DigitsValue(t))
    else if |t| > 1 && t[0] == '-' && AllDigits(t[1..]) then var v: int := DigitsValue(t[1..]); Some(-v)
    else if |t| > 1 && t[0] == '+' && AllDigits(t[1..]) then Some(DigitsValue(t[1..]))
    else None
  }

  /** A decimal rendering reads back as its own value. */
  lemma ToNumberDecimal(n: nat)
    ensures ToNumber(Decimal(n)) == Some(n)
  {
    var s := Decimal(n);
    assert IsTrimmed(s);
    TrimWrapped([], s, []);
    assert [] + s + [] == s;
    DecimalValue(n);
  }
}
