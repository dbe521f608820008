/** The few Python string operations the invoice program relies on:
    `str.strip`, `in` on strings, `str.split`, `str.join`, `str(int)` and
    `int(str)`, each defined on `seq<char>` (one `char` per code point). */
module Text {
  import opened Wrappers
  import opened Seqs

  /** Python's `str.isspace` on one code point: the characters `strip()` removes. */
  predicate IsSpace(c: char) {
    ('\t' <= c <= '\r') || ('\U{1c}' <= c <= '\U{1f}') || c == ' '
    || c == '\U{85}' || c == '\U{a0}' || c == '\U{1680}'
    || ('\U{2000}' <= c <= '\U{200a}') || c == '\U{2028}' || c == '\U{2029}'
    || c == '\U{202f}' || c == '\U{205f}' || c == '\U{3000}'
  }

  /** The whitespace `int()` skips around a number. CPython first turns
      every non-ASCII whitespace character into a space and then skips only
      ASCII whitespace (tab, line feed, vertical tab, form feed, carriage
      return, space); the separators U+001C to U+001F, whitespace to
      `str.isspace`, are not skipped. */
  predicate IsIntSpace(c: char) {
    IsSpace(c) && !('\U{1c}' <= c <= '\U{1f}')
  }

  /** `s.lstrip()`: the suffix of `s` left after its leading whitespace. */
  function TrimLeft(s: string): (r: string)
    ensures |r| <= |s| && r == s[|s| - |r|..]
    ensures forall k :: 0 <= k < |s| - |r| ==> IsSpace(s[k])
    ensures r == [] || !IsSpace(r[0])
  {
    if |s| > 0 && IsSpace(s[0]) then TrimLeft(s[1..]) else s
  }

  /** `s.rstrip()`: the prefix of `s` left after its trailing whitespace. */
  function TrimRight(s: string): (r: string)
    ensures |r| <= |s| && r == s[..|r|]
    ensures forall k :: |r| <= k < |s| ==> IsSpace(s[k])
    ensures r == [] || !IsSpace(r[|r| - 1])
  {
    if |s| > 0 && IsSpace(s[|s| - 1]) then TrimRight(s[..|s| - 1]) else s
  }

  /** `s.strip()`: `s` without leading and trailing whitespace. */
  function Strip(s: string): (r: string)
    ensures |r| <= |s|
    ensures r == [] || (!IsSpace(r[0]) && !IsSpace(r[|r| - 1]))
    ensures exists i: nat :: CutAt(s, r, i)
  {
    var t := TrimLeft(s);
    var r := TrimRight(t);
    CutParts(s, t, r, |s| - |t|);
    r
  }

  lemma CutParts(s: string, t: string, r: string, i: nat)
    requires i <= |s| && t == s[i..] && |r| <= |t| && r == t[..|r|]
    requires forall k :: 0 <= k < i ==> IsSpace(s[k])
    requires forall k :: |r| <= k < |t| ==> IsSpace(t[k])
    ensures CutAt(s, r, i)
  {
    SliceOfSlice(s, i, |r|);
    forall k | i + |r| <= k < |s|
      ensures IsSpace(s[k])
    {
      assert s[k] == t[k - i];
    }
  }

  /** `r` is the part of `s` from index `i` on, with only whitespace cut
      off before it and after it. */
  predicate CutAt(s: string, r: string, i: nat) {
    && i + |r| <= |s| && r == s[i..i + |r|]
    && (forall k :: 0 <= k < i ==> IsSpace(s[k]))
    && (forall k :: i + |r| <= k < |s| ==> IsSpace(s[k]))
  }

  /** Stripping a string that neither starts nor ends with whitespace changes nothing. */
  lemma StripUnchanged(s: string)
    requires s == [] || (!IsSpace(s[0]) && !IsSpace(s[|s| - 1]))
    ensures Strip(s) == s
  {
  }

  /** The leading whitespace `int()` skips. */
  function IntTrimLeft(s: string): (r: string)
    ensures |r| <= |s| && r == s[|s| - |r|..]
    ensures forall k :: 0 <= k < |s| - |r| ==> IsIntSpace(s[k])
    ensures r == [] || !IsIntSpace(r[0])
  {
    if |s| > 0 && IsIntSpace(s[0]) then IntTrimLeft(s[1..]) else s
  }

  /** The trailing whitespace `int()` skips. */
  function IntTrimRight(s: string): (r: string)
    ensures |r| <= |s| && r == s[..|r|]
    ensures forall k :: |r| <= k < |s| ==> IsIntSpace(s[k])
    ensures r == [] || !IsIntSpace(r[|r| - 1])
  {
    if |s| > 0 && IsIntSpace(s[|s| - 1]) then IntTrimRight(s[..|s| - 1]) else s
  }

  /** What `int()` parses of `s`: `s` without the leading and trailing
      whitespace it skips. */
  function IntStrip(s: string): (r: string)
    ensures |r| <= |s|
    ensures r == [] || (!IsIntSpace(r[0]) && !IsIntSpace(r[|r| - 1]))
    ensures exists i: nat :: IntCutAt(s, r, i)
  {
    var t := IntTrimLeft(s);
    var r := IntTrimRight(t);
    IntCutParts(s, t, r, |s| - |t|);
    r
  }

  lemma IntCutParts(s: string, t: string, r: string, i: nat)
    requires i <= |s| && t == s[i..] && |r| <= |t| && r == t[..|r|]
    requires forall k :: 0 <= k < i ==> IsIntSpace(s[k])
    requires forall k :: |r| <= k < |t| ==> IsIntSpace(t[k])
    ensures IntCutAt(s, r, i)
  {
    SliceOfSlice(s, i, |r|);
    forall k | i + |r| <= k < |s|
      ensures IsIntSpace(s[k])
    {
      assert s[k] == t[k - i];
    }
  }

  /** `r` is the part of `s` from index `i` on, with only whitespace that
      `int()` skips cut off before it and after it. */
  predicate IntCutAt(s: string, r: string, i: nat) {
    && i + |r| <= |s| && r == s[i..i + |r|]
    && (forall k :: 0 <= k < i ==> IsIntSpace(s[k]))
    && (forall k :: i + |r| <= k < |s| ==> IsIntSpace(s[k]))
  }

  /** A text without such whitespace at its ends is parsed as it stands. */
  lemma IntStripUnchanged(s: string)
    requires s == [] || (!IsIntSpace(s[0]) && !IsIntSpace(s[|s| - 1]))
    ensures IntStrip(s) == s
  {
  }

  /** Stripping twice is stripping once. */
  lemma StripIdempotent(s: string)
    ensures Strip(Strip(s)) == Strip(s)
  {
    StripUnchanged(Strip(s));
  }

  /** Stripping `t` followed by whitespace only is stripping `t`, when `t`
      itself ends in a non-whitespace character. */
  lemma StripTrailingSpace(t: string, w: string)
    requires |t| > 0 && !IsSpace(t[0]) && !IsSpace(t[|t| - 1])
    requires forall k :: 0 <= k < |w| ==> IsSpace(w[k])
    ensures Strip(t + w) == t
  {
    var s := t + w;
    assert TrimLeft(s) == s;
    var r := TrimRight(s);
    assert !IsSpace(s[|t| - 1]);
    assert forall k :: |t| <= k < |s| ==> IsSpace(s[k]);
    assert |r| == |t|;
    assert r == s[..|t|] == t;
  }

  /** `pat` occurs in `s` starting at index `i`. */
  predicate OccursAt(s: string, pat: string, i: nat) {
    i + |pat| <= |s| && s[i..i + |pat|] == pat
  }

  /** The first index at or after `i` where `pat` occurs in `s`. */
  function FindFrom(s: string, pat: string, i: nat): (r: Option<nat>)
    decreases |s| - i
    ensures r.Some? ==> i <= r.value && OccursAt(s, pat, r.value)
    ensures r.Some? ==> forall k: nat :: i <= k < r.value ==> !OccursAt(s, pat, k)
    ensures r.None? ==> forall k: nat :: i <= k ==> !OccursAt(s, pat, k)
  {
    if i + |pat| > |s| then None
    else if s[i..i + |pat|] == pat then Some(i)
    else FindFrom(s, pat, i + 1)
  }

  /** `s.find(pat)`: the first index where `pat` occurs in `s`, if any. */
  function Find(s: string, pat: string): (r: Option<nat>)
    ensures r.Some? ==> OccursAt(s, pat, r.value)
    ensures r.Some? ==> forall k: nat :: k < r.value ==> !OccursAt(s, pat, k)
    ensures r.None? ==> forall k: nat :: !OccursAt(s, pat, k)
  {
    FindFrom(s, pat, 0)
  }

  /** Python's `pat in s` on strings. */
  predicate Contains(s: string, pat: string) {
    Find(s, pat).Some?
  }

  /** `Contains` holds when `pat` occurs somewhere in `s`. */
  lemma ContainsAt(s: string, pat: string, i: nat)
    requires OccursAt(s, pat, i)
    ensures Contains(s, pat)
  {
  }

  /** A found pattern's first character is in the string. */
  lemma ContainsFirst(s: string, pat: string)
    requires |pat| > 0 && Contains(s, pat)
    ensures pat[0] in s
  {
    var i := Find(s, pat).value;
    assert s[i..i + |pat|][0] == s[i];
  }

  /** A pattern found in `a` is still found in `a + b` and `b + a`. */
  lemma ContainsInContext(a: string, b: string, pat: string)
    requires Contains(a, pat)
    ensures Contains(a + b, pat) && Contains(b + a, pat)
  {
    var i := Find(a, pat).value;
    assert (a + b)[i..i + |pat|] == a[i..i + |pat|];
    ContainsAt(a + b, pat, i);
    assert (b + a)[|b| + i..|b| + i + |pat|] == a[i..i + |pat|];
    ContainsAt(b + a, pat, |b| + i);
  }

  /** `s.split(sep)[0]` for a non-empty `sep`: the text before the first
      occurrence of `sep`, or all of `s` when `sep` does not occur. */
  function BeforeFirst(s: string, sep: string): (r: string)
    requires |sep| > 0
    ensures |r| <= |s| && r == s[..|r|]
    ensures Contains(s, sep) <==> |r| < |s|
    ensures Contains(s, sep) ==> OccursAt(s, sep, |r|) && forall k: nat :: k < |r| ==> !OccursAt(s, sep, k)
  {
    match Find(s, sep)
    case Some(i) => s[..i]
    case None => s
  }

  /** Python's `sep.join(parts)`. */
  function Join(parts: seq<string>, sep: string): string
    decreases |parts|
  {
    if |parts| == 0 then ""
    else if |parts| == 1 then parts[0]
    else parts[0] + sep + Join(parts[1..], sep)
  }

  /** Joining the concatenation of two non-empty lists puts one separator
      between the two joins. */
  lemma {:induction false} JoinAppend(a: seq<string>, b: seq<string>, sep: string)
    requires |a| > 0 && |b| > 0
    ensures Join(a + b, sep) == Join(a, sep) + sep + Join(b, sep)
    decreases |a|
  {
    if |a| == 1 {
      assert (a + b)[1..] == b;
    } else {
      assert (a + b)[1..] == a[1..] + b;
      JoinAppend(a[1..], b, sep);
    }
  }

  /** Every part of a join occurs in it. */
  lemma {:induction false} JoinContainsPart(parts: seq<string>, sep: string, k: nat)
    requires k < |parts|
    ensures Contains(Join(parts, sep), parts[k])
    decreases |parts|
  {
    var j := Join(parts, sep);
    if k == 0 {
      assert j[..|parts[0]|] == parts[0];
      ContainsAt(j, parts[0], 0);
    } else {
      JoinContainsPart(parts[1..], sep, k - 1);
      ContainsInContext(Join(parts[1..], sep), parts[0] + sep, parts[k]);
    }
  }

  /** Python's `s.split(c)` for a one-character separator: the pieces of
      `s` between the occurrences of `c`. */
  function Split(s: string, c: char): (parts: seq<string>)
    decreases |s|
    ensures |parts| >= 1
    ensures forall k :: 0 <= k < |parts| ==> c !in parts[k]
    ensures Join(parts, [c]) == s
  {
    match Find(s, [c])
    case None =>
      NoSeparatorBefore(s, c, |s|);
      assert s[..|s|] == s;
      [s]
    case Some(i) =>
      NoSeparatorBefore(s, c, i);
      assert s[i..i + 1] == [c];
      var rest := Split(s[i + 1..], c);
      SplitCons(s, c, i, rest);
      [s[..i]] + rest
  }

  lemma NoSeparatorBefore(s: string, c: char, n: nat)
    requires n <= |s| && forall k: nat :: k < n ==> !OccursAt(s, [c], k)
    ensures c !in s[..n]
  {
    forall k | 0 <= k < n
      ensures s[k] != c
    {
      assert !OccursAt(s, [c], k);
      assert s[k..k + 1] == [s[k]];
    }
  }

  lemma SplitCons(s: string, c: char, i: nat, rest: seq<string>)
    requires i < |s| && s[i] == c && c !in s[..i]
    requires |rest| >= 1 && (forall k :: 0 <= k < |rest| ==> c !in rest[k])
    requires Join(rest, [c]) == s[i + 1..]
    ensures forall k :: 0 <= k < |rest| + 1 ==> c !in ([s[..i]] + rest)[k]
    ensures Join([s[..i]] + rest, [c]) == s
  {
    var parts := [s[..i]] + rest;
    Cons(s[..i], rest);
    assert Join(parts, [c]) == s[..i] + [c] + Join(rest, [c]);
    TakeAround(s, i);
    forall k | 0 <= k < |parts|
      ensures c !in parts[k]
    {
      if k > 0 {
        assert parts[k] == rest[k - 1];
      }
    }
  }

  /** A one-character separator cuts `s` into several pieces exactly when
      it occurs in `s`; otherwise the only piece is `s` itself. */
  lemma SplitWhole(s: string, c: char)
    ensures c !in s <==> Split(s, c) == [s]
    ensures c in s ==> |Split(s, c)| >= 2
  {
    if c in s {
      var k :| 0 <= k < |s| && s[k] == c;
      assert s[k..k + 1] == [c];
      assert OccursAt(s, [c], k);
    } else {
      forall k: nat
        ensures !OccursAt(s, [c], k)
      {
        if k + 1 <= |s| {
          assert s[k..k + 1] == [s[k]];
        }
      }
    }
  }

  /** The first piece ends at the first separator. */
  lemma SplitFirst(a: string, b: string, c: char)
    requires c !in a
    ensures Split(a + [c] + b, c) == [a] + Split(b, c)
  {
    var s := a + [c] + b;
    assert s[|a|..|a| + 1] == [c];
    assert OccursAt(s, [c], |a|);
    forall k: nat | k < |a|
      ensures !OccursAt(s, [c], k)
    {
      assert s[k..k + 1] == [a[k]] && a[k] in a;
    }
    assert Find(s, [c]) == Some(|a|);
    assert s[..|a|] == a;
    assert s[|a| + 1..] == b;
  }

  /** Splitting a join recovers the parts when no part holds the separator. */
  lemma {:induction false} SplitJoin(parts: seq<string>, c: char)
    requires |parts| >= 1
    requires forall k :: 0 <= k < |parts| ==> c !in parts[k]
    ensures Split(Join(parts, [c]), c) == parts
    decreases |parts|
  {
    if |parts| > 1 {
      var s := Join(parts, [c]);
      var p := parts[0];
      assert s == p + [c] + Join(parts[1..], [c]);
      assert OccursAt(s, [c], |p|);
      assert forall k :: 0 <= k < |p| ==> s[k..k + 1] == [p[k]];
      forall k: nat | k < |p|
        ensures !OccursAt(s, [c], k)
      {
        assert s[k..k + 1] == [p[k]] && p[k] in p;
      }
      assert Find(s, [c]) == Some(|p|);
      assert s[..|p|] == p;
      assert s[|p| + 1..] == Join(parts[1..], [c]);
      SplitJoin(parts[1..], c);
    }
  }

  predicate IsDigit(c: char) {
    '0' <= c <= '9'
  }

  predicate AllDigits(s: string) {
    forall k :: 0 <= k < |s| ==> IsDigit(s[k])
  }

  function DigitChar(d: nat): (c: char)
    requires d < 10
    ensures IsDigit(c)
  {
    (48 + d) as char
  }

  function DigitValue(c: char): (d: nat)
    requires IsDigit(c)
    ensures d < 10
  {
    (c as int - 48) as nat
  }

  /** The number a string of decimal digits denotes. */
  function DigitsValue(s: string): nat
    requires AllDigits(s)
  {
    if s == [] then 0 else DigitsValue(s[..|s| - 1]) * 10 + DigitValue(s[|s| - 1])
  }

  /** Python's `str(n)` for a natural number: its shortest decimal digits. */
  function NatToString(n: nat): (s: string)
    ensures |s| >= 1 && AllDigits(s)
    ensures DigitsValue(s) == n
    ensures |s| > 1 ==> s[0] != '0'
  {
    if n < 10 then
      [DigitChar(n)]
    else
      var t := NatToString(n / 10);
      var s := t + [DigitChar(n % 10)];
      assert s[..|s| - 1] == t;
      s
  }

  function Pow10(w: nat): (p: nat)
    ensures p >= 1
  {
    if w == 0 then 1 else 10 * Pow10(w - 1)
  }

  /** A number below `10^w` has at most `w` digits. */
  lemma {:induction false} NatToStringWidth(n: nat, w: nat)
    requires w >= 1 && n < Pow10(w)
    ensures |NatToString(n)| <= w
    decreases w
  {
    if n >= 10 {
      assert w >= 2;
      NatToStringWidth(n / 10, w - 1);
    }
  }

  /** Python's `str(i)` for an integer: a minus sign before the digits of `-i`
      when `i` is negative. */
  function IntToString(i: int): (s: string)
    ensures |s| >= 1 && !IsSpace(s[0]) && !IsSpace(s[|s| - 1])
    ensures i >= 0 ==> s == NatToString(i)
    ensures i < 0 ==> s == "-" + NatToString(-i)
  {
    if i < 0 then "-" + NatToString(-i) else NatToString(i)
  }

  /** A printed number is a sign and digits, so it never breaks a line. */
  lemma IntToStringOneLine(i: int)
    ensures '\n' !in IntToString(i)
  {
    var s := IntToString(i);
    assert forall k :: 0 <= k < |s| ==> s[k] == '-' || IsDigit(s[k]);
  }

  /** `s` with every `'_'` removed. */
  function DropUnderscores(s: string): (r: string)
    ensures |r| <= |s|
    ensures '_' !in s ==> r == s
  {
    if s == [] then []
    else (if s[0] == '_' then [] else [s[0]]) + DropUnderscores(s[1..])
  }

  /** The digit part Python's `int()` accepts: decimal digits, with single
      underscores allowed between two digits. */
  predicate IsDigitGroups(s: string) {
    && |s| > 0 && IsDigit(s[0]) && IsDigit(s[|s| - 1])
    && (forall k :: 0 <= k < |s| ==> IsDigit(s[k]) || s[k] == '_')
    && (forall k :: 0 < k < |s| && s[k] == '_' ==> s[k - 1] != '_')
  }

  lemma DropUnderscoresDigits(s: string)
    requires forall k :: 0 <= k < |s| ==> IsDigit(s[k]) || s[k] == '_'
    ensures AllDigits(DropUnderscores(s))
  {
    if s != [] {
      DropUnderscoresDigits(s[1..]);
    }
  }

  /** `sys.int_info.default_max_str_digits`: since Python 3.11, `int()`
      refuses a decimal text with more digits than this. */
  const MaxStrDigits: nat := 4300

  /** The value of a digit part, if it is one and `int()` accepts its
      number of digits (underscores do not count). */
  function GroupsValue(body: string): (r: Option<nat>)
    ensures r.Some? <==> IsDigitGroups(body) && |DropUnderscores(body)| <= MaxStrDigits
  {
    if IsDigitGroups(body) && |DropUnderscores(body)| <= MaxStrDigits then
      DropUnderscoresDigits(body);
      Some(DigitsValue(DropUnderscores(body)))
    else
      None
  }

  /** A stripped text: an optional sign, then a digit part. */
  function SignedValue(t: string): (r: Option<int>)
  {
    if |t| > 0 && t[0] == '-' then
      (match GroupsValue(t[1..]) case Some(n) => Some(-(n as int)) case None => None)
    else if |t| > 0 && t[0] == '+' then
      (match GroupsValue(t[1..]) case Some(n) => Some(n as int) case None => None)
    else
      (match GroupsValue(t) case Some(n) => Some(n as int) case None => None)
  }

  /** Python's `int(s)` on a string, in base 10: the whitespace `int()`
      skips, an optional sign, then digit groups of at most `MaxStrDigits`
      digits; `None` where Python raises `ValueError`. */
  function ParseInt(s: string): (r: Option<int>)
  {
    SignedValue(IntStrip(s))
  }

  /** Python's `int(str(i)) == i`: the rate dialog reads back every integer
      that `str` writes, up to the digit limit (beyond it, `str` itself
      raises `ValueError` in the same Python versions). */
  lemma ParseIntRoundTrip(i: int)
    ensures ParseInt(IntToString(i)) ==
            if |NatToString(if i < 0 then -i else i)| <= MaxStrDigits then Some(i) else None
  {
    if i < 0 {
      ParseNegative(-i, IntToString(i));
    } else {
      ParseNatural(i, IntToString(i));
    }
  }

  lemma ParseNatural(n: nat, s: string)
    requires s == NatToString(n)
    ensures ParseInt(s) == if |s| <= MaxStrDigits then Some(n) else None
  {
    assert IsDigit(s[0]) && IsDigit(s[|s| - 1]);
    ParsePlain(s);
    SignedDigits(s);
  }

  lemma ParseNegative(n: nat, s: string)
    requires s == "-" + NatToString(n)
    ensures ParseInt(s) == if |NatToString(n)| <= MaxStrDigits then Some(-(n as int)) else None
  {
    var digits := NatToString(n);
    DigitsAreGroups(digits);
    assert IsDigit(digits[|digits| - 1]);
    ParseMinus(digits, s);
    if |digits| <= MaxStrDigits {
      assert GroupsValue(digits) == Some(n);
    }
  }

  /** A minus sign before a digit part reads as the negated value. */
  lemma ParseMinusDigits(digits: string, n: nat, s: string)
    requires GroupsValue(digits) == Some(n) && s == "-" + digits
    ensures ParseInt(s) == Some(-(n as int))
  {
    assert IsDigit(digits[|digits| - 1]);
    ParseMinus(digits, s);
  }

  /** A minus sign before a text ending in a digit: the negated value of
      the rest, if it has one. */
  lemma ParseMinus(digits: string, s: string)
    requires s == "-" + digits && |digits| > 0 && IsDigit(digits[|digits| - 1])
    ensures GroupsValue(digits).None? ==> ParseInt(s) == None
    ensures forall n: nat :: GroupsValue(digits) == Some(n) ==> ParseInt(s) == Some(-(n as int))
  {
    assert s[0] == '-' && s[1..] == digits && s[|s| - 1] == digits[|digits| - 1];
    ParsePlain(s);
    SignedMinus(s);
  }

  lemma SignedMinus(t: string)
    requires |t| > 0 && t[0] == '-'
    ensures GroupsValue(t[1..]).None? ==> SignedValue(t) == None
    ensures forall n: nat :: GroupsValue(t[1..]) == Some(n) ==> SignedValue(t) == Some(-(n as int))
  {
  }

  /** A text of more than `MaxStrDigits` digits is refused, whatever its value. */
  lemma ParseIntDigitLimit(d: string)
    requires AllDigits(d) && |d| > MaxStrDigits
    ensures ParseInt(d) == None
  {
    assert IsDigit(d[0]) && IsDigit(d[|d| - 1]);
    ParsePlain(d);
    SignedDigits(d);
  }

  /** `int()` reads a text without whitespace at its ends as it stands. */
  lemma ParsePlain(t: string)
    requires t == [] || (!IsIntSpace(t[0]) && !IsIntSpace(t[|t| - 1]))
    ensures ParseInt(t) == SignedValue(t)
  {
    IntStripUnchanged(t);
  }

  /** Unsigned plain digits are read as their value, up to the digit limit. */
  lemma SignedDigits(d: string)
    requires |d| >= 1 && AllDigits(d)
    ensures SignedValue(d) == if |d| <= MaxStrDigits then Some(DigitsValue(d)) else None
  {
    assert IsDigit(d[0]);
    DigitsAreGroups(d);
  }

  /** A text that starts with neither a sign nor a digit has no value. */
  lemma SignedBadStart(t: string)
    requires |t| > 0 && !IsDigit(t[0]) && t[0] != '-' && t[0] != '+'
    ensures SignedValue(t) == None
  {
  }

  /** A text that does not end in a digit has no value. */
  lemma SignedBadEnd(t: string)
    requires |t| > 0 && !IsDigit(t[|t| - 1])
    ensures SignedValue(t) == None
  {
    if |t| > 1 {
      assert t[1..][|t| - 2] == t[|t| - 1];
    }
  }

  /** `int()` does not skip a separator control U+001C to U+001F in front,
      although `strip()` would: `int("\x1c5")` raises `ValueError`. */
  lemma ParseIntLeadingSeparator(c: char, s: string)
    requires '\U{1c}' <= c <= '\U{1f}'
    ensures ParseInt([c] + s) == None
  {
    var u := [c] + s;
    IntStripKeepsFirst(u);
    SignedBadStart(IntStrip(u));
  }

  /** Nor at the end: `int("5\x1f")` raises `ValueError`. */
  lemma ParseIntTrailingSeparator(c: char, s: string)
    requires '\U{1c}' <= c <= '\U{1f}'
    ensures ParseInt(s + [c]) == None
  {
    var u := s + [c];
    IntStripKeepsLast(u);
    SignedBadEnd(IntStrip(u));
  }

  /** A first character that `int()` does not skip starts the parsed text. */
  lemma IntStripKeepsFirst(s: string)
    requires |s| > 0 && !IsIntSpace(s[0])
    ensures |IntStrip(s)| > 0 && IntStrip(s)[0] == s[0]
  {
    assert IntTrimLeft(s) == s;
  }

  /** A last character that `int()` does not skip ends the parsed text. */
  lemma IntStripKeepsLast(s: string)
    requires |s| > 0 && !IsIntSpace(s[|s| - 1])
    ensures |IntStrip(s)| > 0 && IntStrip(s)[|IntStrip(s)| - 1] == s[|s| - 1]
  {
    var t := IntStrip(s);
    var i: nat :| IntCutAt(s, t, i);
    assert i + |t| == |s|;
  }

  /** Plain decimal digits are digit groups with nothing to drop. */
  lemma DigitsAreGroups(d: string)
    requires |d| >= 1 && AllDigits(d)
    ensures IsDigitGroups(d) && DropUnderscores(d) == d
  {
    assert '_' !in d by {
      forall k | 0 <= k < |d| ensures d[k] != '_' {
        assert IsDigit(d[k]);
      }
    }
  }

  /** Removing underscores works part by part. */
  lemma {:induction false} DropUnderscoresAppend(a: string, b: string)
    ensures DropUnderscores(a + b) == DropUnderscores(a) + DropUnderscores(b)
    decreases |a|
  {
    if a == [] {
      assert a + b == b;
    } else {
      assert (a + b)[0] == a[0] && (a + b)[1..] == a[1..] + b;
      DropUnderscoresAppend(a[1..], b);
    }
  }

  /** An underscore between two digit groups does not change the value:
      `int("1_000") == int("1000")`; only the digits count towards the limit. */
  lemma GroupsUnderscore(a: string, b: string)
    requires IsDigitGroups(a) && IsDigitGroups(b)
    ensures GroupsValue(a + "_" + b) == GroupsValue(a + b)
    ensures GroupsValue(a + "_" + b).Some? <==>
            |DropUnderscores(a)| + |DropUnderscores(b)| <= MaxStrDigits
  {
    GroupsJoined(a, b);
    DropUnderscoresJoin(a, b);
    DropUnderscoresAppend(a, b);
  }

  lemma DropUnderscoresJoin(a: string, b: string)
    ensures DropUnderscores(a + "_" + b) == DropUnderscores(a + b)
  {
    assert DropUnderscores("_") == [];
    DropUnderscoresAppend(a + "_", b);
    DropUnderscoresAppend(a, "_");
    DropUnderscoresAppend(a, b);
  }

  /** Two digit parts make one, joined directly or by an underscore. */
  lemma GroupsJoined(a: string, b: string)
    requires IsDigitGroups(a) && IsDigitGroups(b)
    ensures IsDigitGroups(a + "_" + b) && IsDigitGroups(a + b)
  {
    GroupsJoinedBy(a, "_", b);
    GroupsJoinedBy(a, "", b);
    assert a + "" + b == a + b;
  }

  lemma GroupsJoinedBy(a: string, m: string, b: string)
    requires IsDigitGroups(a) && IsDigitGroups(b) && (m == "_" || m == "")
    ensures IsDigitGroups(a + m + b)
  {
    var s := a + m + b;
    var j := |a| + |m|;
    assert forall k :: 0 <= k < |a| ==> s[k] == a[k];
    assert forall k :: j <= k < |s| ==> s[k] == b[k - j];
    forall k | 0 <= k < |s|
      ensures IsDigit(s[k]) || s[k] == '_'
    {
      if |a| <= k < j {
        assert s[k] == '_';
      }
    }
    forall k | 0 < k < |s| && s[k] == '_'
      ensures s[k - 1] != '_'
    {
      if k > j {
        assert s[k - 1] == b[k - 1 - j];
      }
    }
  }

  /** Leading zeros do not change the value, `int("007") == 7`, but they
      count towards the digit limit. */
  lemma GroupsLeadingZero(s: string)
    requires IsDigitGroups(s)
    ensures GroupsValue("0" + s).Some? <==> |DropUnderscores(s)| < MaxStrDigits
    ensures |DropUnderscores(s)| < MaxStrDigits ==> GroupsValue("0" + s) == GroupsValue(s)
  {
    var z := "0" + s;
    assert forall k :: 1 <= k < |z| ==> z[k] == s[k - 1];
    assert IsDigitGroups(z);
    assert z[1..] == s;
    assert DropUnderscores(z) == "0" + DropUnderscores(s);
    DropUnderscoresDigits(s);
    LeadingZero(DropUnderscores(s));
  }

  /** No digit part holds two underscores in a row. */
  lemma DoubleUnderscoreRefused(u: string, m: nat)
    requires m + 1 < |u| && u[m] == '_' && u[m + 1] == '_'
    ensures GroupsValue(u) == None
  {
  }

  /** `int()` refuses every text with two underscores in a row. */
  lemma ParseIntDoubleUnderscore(a: string, b: string)
    ensures ParseInt(a + "__" + b) == None
  {
    var s := a + "__" + b;
    assert s[|a|] == '_' && s[|a| + 1] == '_';
    ParseIntUnderscorePair(s, |a|);
  }

  /** `int()` refuses a text whose characters `j` and `j + 1` are underscores. */
  lemma ParseIntUnderscorePair(s: string, j: nat)
    requires j + 1 < |s| && s[j] == '_' && s[j + 1] == '_'
    ensures ParseInt(s) == None
  {
    IntStripDoubleUnderscore(s, j);
  }

  lemma IntStripDoubleUnderscore(s: string, j: nat)
    requires j + 1 < |s| && s[j] == '_' && s[j + 1] == '_'
    ensures SignedValue(IntStrip(s)) == None
  {
    var t := IntStrip(s);
    assert !IsIntSpace(s[j]) && !IsIntSpace(s[j + 1]);
    var i := IntStripKeepsPair(s, j);
    var m := j - i;
    assert m + 1 < |t|;
    assert t[m] == '_' && t[m + 1] == '_';
    SignedDoubleUnderscore(t, m);
  }

  /** Two neighbouring characters that `int()` does not skip stay side by
      side in the text it parses. */
  lemma IntStripKeepsPair(s: string, j: nat) returns (i: nat)
    requires j + 1 < |s| && !IsIntSpace(s[j]) && !IsIntSpace(s[j + 1])
    ensures i <= j && j + 1 < i + |IntStrip(s)|
    ensures IntStrip(s)[j - i] == s[j] && IntStrip(s)[j - i + 1] == s[j + 1]
  {
    var t := IntStrip(s);
    i :| IntCutAt(s, t, i);
    assert t[j - i] == s[j] && t[j - i + 1] == s[j + 1];
  }

  /** A stripped text with two underscores in a row has no signed value. */
  lemma SignedDoubleUnderscore(t: string, m: nat)
    requires m + 1 < |t| && t[m] == '_' && t[m + 1] == '_'
    ensures SignedValue(t) == None
  {
    if t[0] == '-' || t[0] == '+' {
      DoubleUnderscoreRefused(t[1..], m - 1);
    } else {
      DoubleUnderscoreRefused(t, m);
    }
  }

  /** `int()` refuses a sign that whitespace parts from its digits:
      `int("- 5")` raises. */
  lemma ParseIntSpacedSign(w: string, sign: char, c: char, b: string)
    requires forall k :: 0 <= k < |w| ==> IsSpace(w[k])
    requires (sign == '-' || sign == '+') && IsSpace(c)
    ensures ParseInt(w + [sign, c] + b) == None
  {
    var s := w + [sign, c] + b;
    assert s[|w|] == sign && s[|w| + 1] == c;
    assert forall k :: 0 <= k < |w| ==> s[k] == w[k];
    ParseIntSpacedSignAt(s, |w|);
  }

  /** The same refusal, for a sign at index `p` after whitespace only. */
  lemma ParseIntSpacedSignAt(s: string, p: nat)
    requires p + 1 < |s| && (s[p] == '-' || s[p] == '+') && IsSpace(s[p + 1])
    requires forall k :: 0 <= k < p ==> IsSpace(s[k])
    ensures ParseInt(s) == None
  {
    var t := IntStrip(s);
    IntStripFromSign(s, p);
    if t[0] == '-' || t[0] == '+' {
      SignedSpacedSign(t);
    } else {
      SignedBadStart(t);
    }
  }

  /** What `int()` skips before such a sign: the parsed text starts with
      the sign and its whitespace, or with a separator control it does not skip. */
  lemma IntStripFromSign(s: string, p: nat)
    requires p + 1 < |s| && (s[p] == '-' || s[p] == '+') && IsSpace(s[p + 1])
    requires forall k :: 0 <= k < p ==> IsSpace(s[k])
    ensures var t := IntStrip(s);
            && |t| > 0
            && ((!IsDigit(t[0]) && t[0] != '-' && t[0] != '+')
                || (t[0] == s[p] && (|t| == 1 || IsSpace(t[1]))))
  {
    var t := IntStrip(s);
    var i: nat :| IntCutAt(s, t, i);
    IntCutKeeps(s, t, i, p);
    assert t[0] == s[i];
    if i < p {
      // a separator control that `int()` does not skip
      assert IsSpace(s[i]) && !IsIntSpace(t[0]);
    } else if |t| > 1 {
      assert t[1] == s[p + 1];
    }
  }

  /** A character `int()` does not skip lies inside the parsed text. */
  lemma IntCutKeeps(s: string, t: string, i: nat, p: nat)
    requires IntCutAt(s, t, i) && p < |s| && !IsIntSpace(s[p])
    ensures i <= p < i + |t| && t[p - i] == s[p]
  {
    if i > p { assert false; }
    if i + |t| <= p { assert false; }
  }

  /** A sign followed by whitespace, or by nothing, has no value. */
  lemma SignedSpacedSign(t: string)
    requires |t| > 0 && (t[0] == '-' || t[0] == '+') && (|t| == 1 || IsSpace(t[1]))
    ensures SignedValue(t) == None
  {
    if |t| > 1 {
      assert t[1..][0] == t[1];
    }
  }

  /** `str(n).zfill(width)` for a natural number: its digits, with zeros in
      front up to `width` characters (the `%d`, `%m`, `%Y` fields of `strftime`). */
  function ZeroPadded(n: nat, width: nat): (s: string)
    ensures |s| == if |NatToString(n)| >= width then |NatToString(n)| else width
    ensures AllDigits(s) && DigitsValue(s) == n
    decreases width
  {
    var d := NatToString(n);
    if |d| >= width then d
    else
      var t := ZeroPadded(n, width - 1);
      LeadingZero(t);
      "0" + t
  }

  /** A leading zero does not change the value of a digit string. */
  lemma {:induction false} LeadingZero(s: string)
    requires AllDigits(s)
    ensures AllDigits("0" + s) && DigitsValue("0" + s) == DigitsValue(s)
    decreases |s|
  {
    var z := "0" + s;
    if s != [] {
      assert z[..|z| - 1] == "0" + s[..|s| - 1];
      LeadingZero(s[..|s| - 1]);
    }
  }

  /** `c * n`: the string of `n` copies of `c`. */
  function Repeat(c: char, n: nat): (s: string)
    ensures |s| == n && forall k :: 0 <= k < n ==> s[k] == c
  {
    seq(n, _ => c)
  }
}
