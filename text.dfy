/**
 * The string operations the ingestion layer relies on: ASCII lower-casing,
 * whitespace stripping, single-character replacement, prefix and substring
 * tests, and the decoding that undoes the space encodings used in search URLs.
 * Only the ASCII behaviour of Python's `str.lower`, `str.strip` and
 * `str.isspace` is modelled.
 */
module Text {

  /** Python's `str.isspace` on ASCII: tab, line feed, vertical tab, form feed,
      carriage return, the four separators 0x1C-0x1F, and space. */
  predicate IsSpace(c: char) {
    (9 <= c as int <= 13) || (28 <= c as int <= 32)
  }

  predicate AllSpace(s: string) {
    forall i :: 0 <= i < |s| ==> IsSpace(s[i])
  }

  /** No leading and no trailing whitespace: what `str.strip` guarantees. */
  predicate Stripped(s: string) {
    s == [] || (!IsSpace(s[0]) && !IsSpace(s[|s| - 1]))
  }

  predicate IsUpper(c: char) {
    'A' <= c <= 'Z'
  }

  function LowerChar(c: char): (d: char)
    ensures !IsUpper(d)
    ensures IsUpper(c) ==> d as int == c as int + 32
    ensures !IsUpper(c) ==> d == c
  {
    if IsUpper(c) then (c as int + 32) as char else c
  }

  /** `str.lower` on ASCII letters; every other character is kept. */
  function Lower(s: string): (r: string) {
    seq(|s|, i requires 0 <= i < |s| => LowerChar(s[i]))
  }

  /** Two strings that differ at most in the letter case of ASCII letters. */
  predicate SameIgnoringCase(a: string, b: string) {
    |a| == |b| && forall i :: 0 <= i < |a| ==> LowerChar(a[i]) == LowerChar(b[i])
  }

  lemma LowerOfSameIgnoringCase(a: string, b: string)
    requires SameIgnoringCase(a, b)
    ensures Lower(a) == Lower(b)
  {
    assert forall i :: 0 <= i < |a| ==> Lower(a)[i] == Lower(b)[i];
  }

  lemma LowerIdempotent(s: string)
    ensures Lower(Lower(s)) == Lower(s)
    ensures SameIgnoringCase(s, Lower(s))
  {
    assert forall i :: 0 <= i < |s| ==> Lower(Lower(s))[i] == Lower(s)[i];
  }

  /** `str.lstrip()`: drops the leading whitespace and nothing else. */
  function TrimStart(s: string): (r: string)
    ensures |r| <= |s| && r == s[|s| - |r|..]
    ensures AllSpace(s[..|s| - |r|])
    ensures r == [] || !IsSpace(r[0])
    decreases |s|
  {
    if s != [] && IsSpace(s[0]) then TrimStart(s[1..]) else s
  }

  lemma TrailingSpaceExtends(s: string, k: nat)
    requires k < |s| && AllSpace(s[..|s| - 1][k..]) && IsSpace(s[|s| - 1])
    ensures AllSpace(s[k..])
  {
    forall i | 0 <= i < |s| - k
      ensures IsSpace(s[k..][i])
    {
      if i < |s| - 1 - k {
        assert s[k..][i] == s[..|s| - 1][k..][i];
      }
    }
  }

  /** `str.rstrip()`: drops the trailing whitespace and nothing else. */
  function TrimEnd(s: string): (r: string)
    ensures |r| <= |s| && r == s[..|r|]
    ensures AllSpace(s[|r|..])
    ensures r == [] || !IsSpace(r[|r| - 1])
    decreases |s|
  {
    if s != [] && IsSpace(s[|s| - 1]) then
      var r := TrimEnd(s[..|s| - 1]);
      TrailingSpaceExtends(s, |r|);
      r
    else s
  }

  /** `str.strip()`: the result is `s` with its leading and trailing
      whitespace removed, and it is left unchanged by a second strip. */
  function Strip(s: string): (r: string)
    ensures Stripped(r)
    ensures Stripped(s) ==> r == s
  {
    var t := TrimStart(s);
    var r := TrimEnd(t);
    assert r != [] ==> r[0] == t[0];
    r
  }

  /** `r` is the slice of `s` starting at `i`, with only whitespace before
      and after it. */
  predicate SurroundedBySpace(s: string, r: string, i: int) {
    0 <= i <= |s| - |r| && s[i..i + |r|] == r && AllSpace(s[..i]) && AllSpace(s[i + |r|..])
  }

  lemma SliceOfSuffix(s: string, i: nat, j: nat)
    requires i <= |s| && j <= |s| - i
    ensures s[i..][..j] == s[i..i + j] && s[i..][j..] == s[i + j..]
  {
  }

  /** `s` is the stripped text surrounded by whitespace only: nothing but
      outer whitespace is removed. */
  lemma StripRemovesOnlyOuterSpace(s: string)
    ensures exists i :: SurroundedBySpace(s, Strip(s), i)
  {
    var t := TrimStart(s);
    var r := TrimEnd(t);
    assert Strip(s) == r;
    var i := |s| - |t|;
    SliceOfSuffix(s, i, |r|);
    assert SurroundedBySpace(s, r, i);
  }

  /** `s.replace(c, rep)` for a single character `c`. */
  function ReplaceChar(s: string, c: char, rep: string): (r: string)
    ensures c !in rep ==> c !in r
    ensures c !in s ==> r == s
    ensures forall x :: x in r ==> (x in s && x != c) || x in rep
    ensures |rep| == 1 ==> |r| == |s|
    ensures |rep| == 1 ==> forall i :: 0 <= i < |s| ==> r[i] == (if s[i] == c then rep[0] else s[i])
    decreases |s|
  {
    if s == [] then []
    else (if s[0] == c then rep else [s[0]]) + ReplaceChar(s[1..], c, rep)
  }

  /** Replacing `c` by a character `d` that `s` does not contain is undone by
      replacing `d` by `c`. */
  lemma {:induction false} ReplaceCharRoundTrip(s: string, c: char, d: char)
    requires d !in s
    ensures ReplaceChar(ReplaceChar(s, c, [d]), d, [c]) == s
  {
    var once := ReplaceChar(s, c, [d]);
    var twice := ReplaceChar(once, d, [c]);
    assert |twice| == |s|;
    forall i | 0 <= i < |s|
      ensures twice[i] == s[i]
    {
      assert s[i] in s;
    }
  }

  /** Replacing a whitespace character keeps a stripped string stripped: its
      two ends are not whitespace, so they are kept. */
  lemma ReplaceKeepsStripped(s: string, c: char, d: char)
    requires Stripped(s) && IsSpace(c)
    ensures Stripped(ReplaceChar(s, c, [d]))
  {
  }

  predicate StartsWith(s: string, prefix: string) {
    |prefix| <= |s| && s[..|prefix|] == prefix
  }

  /** `sub` occurs in `s` at offset `i`. */
  predicate OccursAt(s: string, sub: string, i: int) {
    0 <= i && i + |sub| <= |s| && s[i..i + |sub|] == sub
  }

  /** An occurrence in `s` past offset 0 is an occurrence in its tail, one
      position earlier, and the other way round. */
  lemma OccursShift(s: string, sub: string)
    requires s != []
    ensures forall i :: i > 0 && OccursAt(s, sub, i) ==> OccursAt(s[1..], sub, i - 1)
    ensures forall i :: OccursAt(s[1..], sub, i) ==> OccursAt(s, sub, i + 1)
  {
    forall i | i > 0 && OccursAt(s, sub, i)
      ensures OccursAt(s[1..], sub, i - 1)
    {
      var a, b := s[1..][i - 1..i - 1 + |sub|], s[i..i + |sub|];
      forall k | 0 <= k < |sub| ensures a[k] == b[k] {
        assert a[k] == s[i + k];
      }
      assert a == b;
    }
    forall i | OccursAt(s[1..], sub, i)
      ensures OccursAt(s, sub, i + 1)
    {
      var a, b := s[1..][i..i + |sub|], s[i + 1..i + 1 + |sub|];
      forall k | 0 <= k < |sub| ensures a[k] == b[k] {
        assert a[k] == s[i + 1 + k];
      }
      assert a == b;
    }
  }

  /** Python's `sub in s` for strings. */
  function Contains(s: string, sub: string): (found: bool)
    ensures found <==> exists i :: OccursAt(s, sub, i)
    decreases |s|
  {
    if StartsWith(s, sub) then
      assert OccursAt(s, sub, 0);
      true
    else if s == [] then
      assert forall i :: !OccursAt(s, sub, i);
      false
    else
      var rest := Contains(s[1..], sub);
      OccursShift(s, sub);
      assert !OccursAt(s, sub, 0);
      rest
  }

  /** A string contains each of its suffixes. */
  lemma ContainsSuffix(s: string, sub: string)
    requires |sub| <= |s| && s[|s| - |sub|..] == sub
    ensures Contains(s, sub)
  {
    assert OccursAt(s, sub, |s| - |sub|);
  }

  /** Occurrence is transitive: a string containing `mid`, which contains
      `sub`, contains `sub`. */
  lemma ContainsTransitive(s: string, mid: string, sub: string)
    requires Contains(s, mid) && Contains(mid, sub)
    ensures Contains(s, sub)
  {
    var i :| OccursAt(s, mid, i);
    var j :| OccursAt(mid, sub, j);
    forall k | 0 <= k < |sub|
      ensures s[i + j + k] == sub[k]
    {
      assert mid[j + k] == sub[k];
      assert s[i + (j + k)] == mid[j + k];
    }
    assert s[i + j..i + j + |sub|] == sub;
    assert OccursAt(s, sub, i + j);
  }

  /** A string cannot contain `sub` when it lacks one of its characters. */
  lemma AbsentCharExcludes(s: string, sub: string, j: nat)
    requires j < |sub| && sub[j] !in s
    ensures !Contains(s, sub)
  {
  }

  /** `a` immediately followed by `b` somewhere in `s`. */
  predicate HasPair(s: string, a: char, b: char) {
    exists i :: 0 <= i < |s| - 1 && s[i] == a && s[i + 1] == b
  }

  /** A string cannot contain `sub` when two adjacent characters of `sub` never
      appear next to each other in it. */
  lemma AbsentPairExcludes(s: string, sub: string, j: nat)
    requires j + 1 < |sub| && !HasPair(s, sub[j], sub[j + 1])
    ensures !Contains(s, sub)
  {
  }

  /** Undoes the `%20` encoding of spaces and leaves every other character as
      it is; the inverse of `ReplaceChar(s, ' ', "%20")`. */
  function DecodePercent20(s: string): (r: string)
    decreases |s|
  {
    if s == [] then []
    else if |s| >= 3 && s[0] == '%' && s[1] == '2' && s[2] == '0' then " " + DecodePercent20(s[3..])
    else [s[0]] + DecodePercent20(s[1..])
  }

  /** One step of the round trip: an encoded leading space decodes back. */
  lemma RoundTripSpaceStep(s: string)
    requires s != [] && s[0] == ' '
    requires DecodePercent20(ReplaceChar(s[1..], ' ', "%20")) == s[1..]
    ensures DecodePercent20(ReplaceChar(s, ' ', "%20")) == s
  {
    var tail := ReplaceChar(s[1..], ' ', "%20");
    var e := "%20" + tail;
    assert ReplaceChar(s, ' ', "%20") == e;
    assert e[0] == '%' && e[1] == '2' && e[2] == '0' && e[3..] == tail;
    assert s == [' '] + s[1..];
  }

  /** One step of the round trip: any other leading character is kept. */
  lemma RoundTripOtherStep(s: string)
    requires s != [] && s[0] != ' ' && s[0] != '%'
    requires DecodePercent20(ReplaceChar(s[1..], ' ', "%20")) == s[1..]
    ensures DecodePercent20(ReplaceChar(s, ' ', "%20")) == s
  {
    var tail := ReplaceChar(s[1..], ' ', "%20");
    var e := [s[0]] + tail;
    assert ReplaceChar(s, ' ', "%20") == e;
    assert e[0] == s[0] && e[1..] == tail;
    assert s == [s[0]] + s[1..];
  }

  lemma AbsentFromTail(s: string, c: char)
    requires s != [] && c !in s
    ensures c != s[0] && c !in s[1..]
  {
    assert s == [s[0]] + s[1..];
  }

  lemma {:induction false} Percent20RoundTrip(s: string)
    requires '%' !in s
    ensures DecodePercent20(ReplaceChar(s, ' ', "%20")) == s
    decreases |s|
  {
    if s != [] {
      AbsentFromTail(s, '%');
      Percent20RoundTrip(s[1..]);
      if s[0] == ' ' {
        RoundTripSpaceStep(s);
      } else {
        RoundTripOtherStep(s);
      }
    }
  }

  // ------------------------------------------------ strings put end to end

  /** The second of four concatenated strings sits right after the first. */
  lemma SecondOfFour(a: string, b: string, c: string, d: string)
    ensures OccursAt(a + b + c + d, b, |a|)
  {
    assert (a + b + c + d)[|a|..|a| + |b|] == b;
  }

  /** Four concatenated strings, regrouped from the right. */
  lemma RegroupFour(a: string, b: string, c: string, d: string)
    ensures a + b + c + d == a + (b + (c + d))
  {
  }

  /** A common prefix can be cancelled. */
  lemma PrefixCancel(p: string, x: string, y: string)
    requires p + x == p + y
    ensures x == y
  {
    assert x == (p + x)[|p|..];
    assert y == (p + y)[|p|..];
  }

  /** Two splittings of one string, each just before an occurrence of `c`
      and with no `c` before it, are the same splitting. */
  lemma SplitAtFirst(x1: string, y1: string, x2: string, y2: string, c: char)
    requires c !in x1 && c !in x2
    requires |y1| > 0 && y1[0] == c && |y2| > 0 && y2[0] == c
    requires x1 + y1 == x2 + y2
    ensures x1 == x2 && y1 == y2
  {
    var s := x1 + y1;
    assert s[|x1|] == c && (x2 + y2)[|x2|] == c;
    assert forall k :: 0 <= k < |x1| ==> s[k] == x1[k];
    assert forall k :: 0 <= k < |x2| ==> (x2 + y2)[k] == x2[k];
    assert |x1| == |x2|;
    assert x1 == s[..|x1|] && x2 == s[..|x2|];
    assert y1 == s[|x1|..] && y2 == s[|x2|..];
  }
}
