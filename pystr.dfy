/** The Python `str` operations the scene generator relies on: `find`,
    `split(sep)`, `sep.join`, `strip()`, `endswith`, `capitalize()` and
    `str(int)`, each stated over `seq<char>`. */
module PyStr {
  import opened Wrappers

  // ---------------------------------------------------------------------
  // Occurrences of a separator
  // ---------------------------------------------------------------------

  /** `sep` occurs in `s` at index `i`. */
  predicate OccursAt(s: string, sep: string, i: nat) {
    i + |sep| <= |s| && s[i..i + |sep|] == sep
  }

  /** Python's `sub in s`. */
  predicate Contains(s: string, sub: string) {
    exists i: nat :: i <= |s| && OccursAt(s, sub, i)
  }

  /** Python's `s.find(sep, k)`: the first index at or after `k` where `sep` occurs. */
  function FindFrom(s: string, sep: string, k: nat): (r: Option<nat>)
    requires |sep| > 0
    ensures r.Some? ==> k <= r.value && OccursAt(s, sep, r.value)
    ensures r.Some? ==> forall j: nat :: k <= j < r.value ==> !OccursAt(s, sep, j)
    ensures r.None? ==> forall j: nat :: k <= j ==> !OccursAt(s, sep, j)
    decreases |s| - k
  {
    if k + |sep| > |s| then None
    else if s[k..k + |sep|] == sep then Some(k)
    else FindFrom(s, sep, k + 1)
  }

  /** Python's `s.find(sep)`, with `None` for -1. */
  function Find(s: string, sep: string): (r: Option<nat>)
    requires |sep| > 0
    ensures r.Some? ==> OccursAt(s, sep, r.value)
    ensures r.Some? ==> forall j: nat :: j < r.value ==> !OccursAt(s, sep, j)
    ensures r.None? <==> !Contains(s, sep)
  {
    FindFrom(s, sep, 0)
  }

  /** An occurrence that ends inside a prefix `t` of `s` is an occurrence in `t`. */
  lemma OccursAtPrefix(s: string, t: string, sep: string, j: nat)
    requires t <= s && j + |sep| <= |t|
    ensures OccursAt(s, sep, j) == OccursAt(t, sep, j)
  {
    assert s[j..j + |sep|] == t[j..j + |sep|];
  }

  // ---------------------------------------------------------------------
  // split and join
  // ---------------------------------------------------------------------

  /** Python's `s.split(sep)` for a non-empty `sep` (Python raises ValueError
      for an empty one): the matches are non-overlapping and taken left to
      right, and n matches give n + 1 pieces. */
  function Split(s: string, sep: string): (pieces: seq<string>)
    requires |sep| > 0
    ensures |pieces| >= 1
    decreases |s|
  {
    match Find(s, sep)
    case None => [s]
    case Some(i) => [s[..i]] + Split(s[i + |sep|..], sep)
  }

  /** Python's `sep.join(pieces)`. */
  function Join(sep: string, pieces: seq<string>): (joined: string)
    decreases |pieces|
  {
    if |pieces| == 0 then ""
    else if |pieces| == 1 then pieces[0]
    else pieces[0] + sep + Join(sep, pieces[1..])
  }

  /** Joining one more piece puts one more separator in front of it. */
  lemma {:induction false} JoinSnoc(sep: string, pieces: seq<string>, p: string)
    requires |pieces| >= 1
    ensures Join(sep, pieces + [p]) == Join(sep, pieces) + sep + p
    decreases |pieces|
  {
    if |pieces| == 1 {
      assert pieces + [p] == [pieces[0], p];
      assert Join(sep, [p]) == p;
    } else {
      assert (pieces + [p])[1..] == pieces[1..] + [p];
      JoinSnoc(sep, pieces[1..], p);
    }
  }

  /** Joining in front of at least one piece puts a separator after the new one. */
  lemma JoinCons(sep: string, p: string, pieces: seq<string>)
    requires |pieces| >= 1
    ensures Join(sep, [p] + pieces) == p + sep + Join(sep, pieces)
  {
    assert ([p] + pieces)[1..] == pieces;
  }

  /** Every piece of a join appears in the joined text. */
  lemma {:induction false} JoinContainsPiece(sep: string, pieces: seq<string>, k: nat)
    requires k < |pieces|
    ensures Contains(Join(sep, pieces), pieces[k])
    decreases |pieces|
  {
    if |pieces| == 1 {
      assert OccursAt(Join(sep, pieces), pieces[k], 0);
    } else if k == 0 {
      ContainsPrefix(pieces[0], sep + Join(sep, pieces[1..]));
      assert pieces[0] + sep + Join(sep, pieces[1..]) == pieces[0] + (sep + Join(sep, pieces[1..]));
    } else {
      JoinContainsPiece(sep, pieces[1..], k - 1);
      ContainsInSuffix(pieces[0] + sep, Join(sep, pieces[1..]), pieces[k]);
    }
  }

  /** Splitting and joining again gives back the text. */
  lemma {:induction false} JoinSplit(s: string, sep: string)
    requires |sep| > 0
    ensures Join(sep, Split(s, sep)) == s
    decreases |s|
  {
    match Find(s, sep)
    case None =>
    case Some(i) =>
      var rest := s[i + |sep|..];
      var tail := Split(rest, sep);
      JoinSplit(rest, sep);
      JoinCons(sep, s[..i], tail);
      assert s == s[..i] + sep + rest;
  }

  /** A piece `p` followed by `sep` holds no earlier occurrence of `sep`, not
      even one that runs into the separator itself. */
  predicate EndsAtSeparator(p: string, sep: string) {
    forall j: nat :: j < |p| ==> !OccursAt(p + sep, sep, j)
  }

  /** `pieces` cuts `s` at each leftmost, non-overlapping occurrence of `sep`:
      they join back to `s`, every separator between them is the first one
      from where the previous piece ended, and the last piece holds none. */
  predicate IsLeftmostSplit(s: string, sep: string, pieces: seq<string>) {
    && |pieces| >= 1
    && Join(sep, pieces) == s
    && !Contains(pieces[|pieces| - 1], sep)
    && forall k :: 0 <= k < |pieces| - 1 ==> EndsAtSeparator(pieces[k], sep)
  }

  /** `Split` cuts at the leftmost occurrences. */
  lemma {:induction false} SplitIsLeftmost(s: string, sep: string)
    requires |sep| > 0
    ensures IsLeftmostSplit(s, sep, Split(s, sep))
    decreases |s|
  {
    JoinSplit(s, sep);
    match Find(s, sep)
    case None =>
    case Some(i) =>
      var rest := s[i + |sep|..];
      SplitIsLeftmost(rest, sep);
      var tail := Split(rest, sep);
      var pieces := Split(s, sep);
      assert pieces == [s[..i]] + tail;
      forall j: nat | j < i
        ensures !OccursAt(s[..i] + sep, sep, j)
      {
        assert s[..i] + sep == s[..i + |sep|];
        OccursAtPrefix(s, s[..i] + sep, sep, j);
      }
      forall k | 0 <= k < |pieces| - 1
        ensures EndsAtSeparator(pieces[k], sep)
      {
        if k > 0 { assert pieces[k] == tail[k - 1]; }
      }
  }

  /** After a piece that ends at a separator, the first separator is the one
      that follows the piece. */
  lemma FindAfterPiece(p: string, sep: string, rest: string)
    requires |sep| > 0 && EndsAtSeparator(p, sep)
    ensures Find(p + sep + rest, sep) == Some(|p|)
  {
    var s := p + sep + rest;
    assert OccursAt(s, sep, |p|) by {
      assert s[|p|..|p| + |sep|] == sep;
    }
    forall j: nat | j < |p|
      ensures !OccursAt(s, sep, j)
    {
      assert !OccursAt(p + sep, sep, j);
      assert (p + sep) <= s;
      OccursAtPrefix(s, p + sep, sep, j);
    }
  }

  /** A text without the separator splits into itself alone. */
  lemma SplitWithoutSeparator(s: string, sep: string)
    requires |sep| > 0 && !Contains(s, sep)
    ensures Split(s, sep) == [s]
  {
    assert Find(s, sep).None?;
  }

  /** A split that begins with `p` splits its text at the end of `p`. */
  lemma SplitAfterPiece(p: string, sep: string, rest: string)
    requires |sep| > 0 && EndsAtSeparator(p, sep)
    ensures Split(p + sep + rest, sep) == [p] + Split(rest, sep)
  {
    var s := p + sep + rest;
    FindAfterPiece(p, sep, rest);
    assert s[..|p|] == p;
    assert s[|p| + |sep|..] == rest;
  }

  /** Dropping the first piece of a leftmost split leaves a leftmost split of the rest. */
  lemma LeftmostSplitTail(s: string, sep: string, pieces: seq<string>)
    requires IsLeftmostSplit(s, sep, pieces) && |pieces| >= 2
    ensures IsLeftmostSplit(Join(sep, pieces[1..]), sep, pieces[1..])
  {
    var tail := pieces[1..];
    forall k | 0 <= k < |tail| - 1
      ensures EndsAtSeparator(tail[k], sep)
    {
      assert tail[k] == pieces[k + 1];
    }
    assert tail[|tail| - 1] == pieces[|pieces| - 1];
  }

  /** The leftmost cut is the only one: whatever satisfies `IsLeftmostSplit`
      is what `Split` returns. */
  lemma {:induction false} LeftmostSplitIsSplit(s: string, sep: string, pieces: seq<string>)
    requires |sep| > 0 && IsLeftmostSplit(s, sep, pieces)
    ensures pieces == Split(s, sep)
    decreases |pieces|
  {
    if |pieces| == 1 {
      SplitWithoutSeparator(s, sep);
    } else {
      var p, tail := pieces[0], pieces[1..];
      var rest := Join(sep, tail);
      assert pieces == [p] + tail;
      JoinCons(sep, p, tail);
      LeftmostSplitTail(s, sep, pieces);
      LeftmostSplitIsSplit(rest, sep, tail);
      SplitAfterPiece(p, sep, rest);
    }
  }

  /** `Split` yields a single piece exactly when the separator does not occur. */
  lemma SplitSingleIff(s: string, sep: string)
    requires |sep| > 0
    ensures |Split(s, sep)| == 1 <==> !Contains(s, sep)
  {
    match Find(s, sep)
    case None =>
    case Some(i) =>
      assert |Split(s, sep)| == 1 + |Split(s[i + |sep|..], sep)|;
  }

  /** A separator of one character, or of two different characters, cannot
      straddle the end of a piece that does not contain it. */
  lemma AbsentSeparatorEndsAtSeparator(p: string, sep: string)
    requires 1 <= |sep| <= 2 && (|sep| == 2 ==> sep[0] != sep[1])
    requires !Contains(p, sep)
    ensures EndsAtSeparator(p, sep)
  {
    forall j: nat | j < |p|
      ensures !OccursAt(p + sep, sep, j)
    {
      if j + |sep| <= |p| {
        OccursAtPrefix(p + sep, p, sep, j);
        assert !OccursAt(p, sep, j);
      } else {
        // only a two-character separator can start at the last character of `p`
        assert j + 1 == |p| && |sep| == 2;
        assert (p + sep)[j..j + 2][1] == sep[0] != sep[1];
      }
    }
  }

  /** Joining pieces that do not contain a short separator and splitting
      again gives back the pieces. */
  lemma SplitJoin(sep: string, pieces: seq<string>)
    requires 1 <= |sep| <= 2 && (|sep| == 2 ==> sep[0] != sep[1])
    requires |pieces| >= 1
    requires forall k :: 0 <= k < |pieces| ==> !Contains(pieces[k], sep)
    ensures Split(Join(sep, pieces), sep) == pieces
  {
    forall k | 0 <= k < |pieces| - 1
      ensures EndsAtSeparator(pieces[k], sep)
    {
      AbsentSeparatorEndsAtSeparator(pieces[k], sep);
    }
    LeftmostSplitIsSplit(Join(sep, pieces), sep, pieces);
  }

  // ---------------------------------------------------------------------
  // Containment helpers
  // ---------------------------------------------------------------------

  lemma ContainsPrefix(a: string, b: string)
    ensures Contains(a + b, a)
  {
    assert OccursAt(a + b, a, 0) by { assert (a + b)[..|a|] == a; }
  }

  lemma ContainsInSuffix(a: string, b: string, t: string)
    requires Contains(b, t)
    ensures Contains(a + b, t)
  {
    var i: nat :| i <= |b| && OccursAt(b, t, i);
    assert i + |t| <= |b|;
    assert (a + b)[|a| + i..|a| + i + |t|] == b[i..i + |t|];
    assert OccursAt(a + b, t, |a| + i);
  }

  /** A one-character text occurs exactly where that character is. */
  lemma ContainsChar(s: string, c: char)
    ensures Contains(s, [c]) <==> c in s
  {
    if c in s {
      var i :| 0 <= i < |s| && s[i] == c;
      assert OccursAt(s, [c], i);
    }
    if Contains(s, [c]) {
      var i: nat :| i <= |s| && OccursAt(s, [c], i);
      assert i + 1 <= |s|;
      assert s[i] == s[i..i + 1][0];
    }
  }

  // ---------------------------------------------------------------------
  // strip and endswith
  // ---------------------------------------------------------------------

  /** Python's `str.isspace()` for one character: U+0009..U+000D,
      U+001C..U+001F, space, U+0085, U+00A0, U+1680, U+2000..U+200A,
      U+2028, U+2029, U+202F, U+205F and U+3000. */
  predicate IsSpace(c: char) {
    || '\t' <= c <= '\r'
    || '\U{1C}' <= c <= ' '
    || c == '\U{85}' || c == '\U{A0}' || c == '\U{1680}'
    || '\U{2000}' <= c <= '\U{200A}'
    || c == '\U{2028}' || c == '\U{2029}' || c == '\U{202F}'
    || c == '\U{205F}' || c == '\U{3000}'
  }

  /** Python's `s.lstrip()`. */
  function StripLeft(s: string): (r: string)
    ensures |r| <= |s| && r == s[|s| - |r|..]
    ensures forall k :: 0 <= k < |s| - |r| ==> IsSpace(s[k])
    ensures r == [] || !IsSpace(r[0])
    decreases |s|
  {
    if |s| > 0 && IsSpace(s[0]) then StripLeft(s[1..]) else s
  }

  /** Python's `s.rstrip()`. */
  function StripRight(s: string): (r: string)
    ensures |r| <= |s| && r == s[..|r|]
    ensures forall k :: |r| <= k < |s| ==> IsSpace(s[k])
    ensures r == [] || !IsSpace(r[|r| - 1])
    decreases |s|
  {
    if |s| > 0 && IsSpace(s[|s| - 1]) then StripRight(s[..|s| - 1]) else s
  }

  /** Python's `s.strip()`: the text with all surrounding whitespace removed. */
  function Strip(s: string): (r: string)
    ensures r == [] || (!IsSpace(r[0]) && !IsSpace(r[|r| - 1]))
  {
    StripRight(StripLeft(s))
  }

  /** `r` sits in `s` at index `k` with only whitespace before and after it. */
  predicate PaddedWithWhitespace(s: string, r: string, k: nat) {
    && k + |r| <= |s| && s[k..k + |r|] == r
    && (forall i :: 0 <= i < k ==> IsSpace(s[i]))
    && (forall i :: k + |r| <= i < |s| ==> IsSpace(s[i]))
  }

  /** `Strip` removes only whitespace. */
  lemma StripRemovesOnlyWhitespace(s: string)
    ensures exists k: nat :: PaddedWithWhitespace(s, Strip(s), k)
  {
    var left := StripLeft(s);
    var r := StripRight(left);
    assert Strip(s) == r;
    PaddedOfParts(s, left, r);
  }

  /** Whitespace removed from the left and then from the right pads the rest. */
  lemma PaddedOfParts(s: string, left: string, r: string)
    requires |left| <= |s| && left == s[|s| - |left|..]
    requires forall i :: 0 <= i < |s| - |left| ==> IsSpace(s[i])
    requires |r| <= |left| && r == left[..|r|]
    requires forall i :: |r| <= i < |left| ==> IsSpace(left[i])
    ensures exists k: nat :: PaddedWithWhitespace(s, r, k)
  {
    var k: nat := |s| - |left|;
    assert s[k..k + |r|] == left[..|r|];
    forall i | k + |r| <= i < |s|
      ensures IsSpace(s[i])
    {
      assert s[i] == left[i - k];
    }
    assert PaddedWithWhitespace(s, r, k);
  }

  /** A text with no surrounding whitespace is left alone by `Strip`. */
  lemma StripTrimmed(s: string)
    requires s == [] || (!IsSpace(s[0]) && !IsSpace(s[|s| - 1]))
    ensures Strip(s) == s
  {
  }

  /** Stripping twice is stripping once. */
  lemma StripIdempotent(s: string)
    ensures Strip(Strip(s)) == Strip(s)
  {
    StripTrimmed(Strip(s));
  }

  /** A text made only of whitespace strips to the empty text. */
  lemma {:induction false} StripBlank(s: string)
    requires forall k :: 0 <= k < |s| ==> IsSpace(s[k])
    ensures Strip(s) == []
  {
    assert StripLeft(s) == [];
  }

  /** Python's `s.endswith(suffix)`. */
  predicate EndsWith(s: string, suffix: string) {
    |suffix| <= |s| && s[|s| - |suffix|..] == suffix
  }

  // ---------------------------------------------------------------------
  // capitalize
  // ---------------------------------------------------------------------

  function ToUpper(c: char): (u: char)
    ensures 'a' <= c <= 'z' ==> 'A' <= u <= 'Z'
    ensures !('a' <= c <= 'z') ==> u == c
  {
    if 'a' <= c <= 'z' then (c as int - 'a' as int + 'A' as int) as char else c
  }

  function ToLower(c: char): (l: char)
    ensures 'A' <= c <= 'Z' ==> 'a' <= l <= 'z'
    ensures !('A' <= c <= 'Z') ==> l == c
  {
    if 'A' <= c <= 'Z' then (c as int - 'A' as int + 'a' as int) as char else c
  }

  /** Python's `s.capitalize()` over ASCII letters: the first character
      upper-cased and every other one lower-cased. */
  function Capitalize(s: string): (r: string)
    ensures |r| == |s|
    ensures |s| > 0 ==> r[0] == ToUpper(s[0])
    ensures forall k :: 1 <= k < |s| ==> r[k] == ToLower(s[k])
  {
    if s == [] then [] else [ToUpper(s[0])] + seq(|s| - 1, k requires 0 <= k < |s| - 1 => ToLower(s[k + 1]))
  }

  /** Capitalizing an already capitalized text changes nothing. */
  lemma CapitalizeIdempotent(s: string)
    ensures Capitalize(Capitalize(s)) == Capitalize(s)
  {
  }

  /** Capitalizing changes only letters: it adds no line break. */
  lemma CapitalizeKeepsNewlines(s: string)
    ensures '\n' in Capitalize(s) <==> '\n' in s
  {
    var r := Capitalize(s);
    if '\n' in r {
      var k :| 0 <= k < |r| && r[k] == '\n';
      assert s[k] == '\n';
    }
    if '\n' in s {
      var k :| 0 <= k < |s| && s[k] == '\n';
      assert r[k] == '\n';
    }
  }

  // ---------------------------------------------------------------------
  // str(int)
  // ---------------------------------------------------------------------

  function DigitChar(d: nat): (c: char)
    requires d < 10
    ensures '0' <= c <= '9'
  {
    ('0' as int + d) as char
  }

  /** The decimal digits of `n`, most significant first, with no leading zero. */
  function NatToDecimal(n: nat): (r: string)
    ensures |r| >= 1 && forall k :: 0 <= k < |r| ==> '0' <= r[k] <= '9'
    ensures |r| > 1 ==> r[0] != '0'
    decreases n
  {
    if n < 10 then [DigitChar(n)] else NatToDecimal(n / 10) + [DigitChar(n % 10)]
  }

  /** The value of a text of decimal digits. */
  function DecimalValue(s: string): nat
    requires forall k :: 0 <= k < |s| ==> '0' <= s[k] <= '9'
    decreases |s|
  {
    if s == [] then 0 else DecimalValue(s[..|s| - 1]) * 10 + (s[|s| - 1] as int - '0' as int)
  }

  /** Reading back the digits of `n` gives `n`. */
  lemma {:induction false} DecimalRoundTrip(n: nat)
    ensures DecimalValue(NatToDecimal(n)) == n
    decreases n
  {
    if n >= 10 {
      var r := NatToDecimal(n);
      assert r[..|r| - 1] == NatToDecimal(n / 10);
      DecimalRoundTrip(n / 10);
    }
  }

  /** Python's `str(n)` for an integer. */
  function IntToString(n: int): (r: string)
    ensures |r| >= 1
    ensures n < 0 <==> r[0] == '-'
  {
    if n < 0 then "-" + NatToDecimal(-n) else NatToDecimal(n)
  }
}
