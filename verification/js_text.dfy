/**
 * String primitives of the JavaScript runtime that the site's code relies on:
 * the white-space class shared by `String.prototype.trim` and the regular
 * expression escape `\s`, trimming, ASCII case mapping and substring search.
 * Strings are sequences of characters.
 */
module JsText {

  /** JavaScript WhiteSpace and LineTerminator code points (the `\s` class, and what `trim` strips). */
  predicate IsSpace(c: char) {
    || c == '\t' || c == '\n' || c == '\U{000B}' || c == '\U{000C}' || c == '\r' || c == ' '
    || c == '\U{00A0}' || c == '\U{1680}' || ('\U{2000}' <= c <= '\U{200A}')
    || c == '\U{2028}' || c == '\U{2029}' || c == '\U{202F}' || c == '\U{205F}'
    || c == '\U{3000}' || c == '\U{FEFF}'
  }

  predicate NoSpace(s: string) {
    forall i :: 0 <= i < |s| ==> !IsSpace(s[i])
  }

  predicate AllSpace(s: string) {
    forall i :: 0 <= i < |s| ==> IsSpace(s[i])
  }

  /** `s` has no white space at either end. */
  predicate IsTrimmed(s: string) {
    s == [] || (!IsSpace(s[0]) && !IsSpace(s[|s| - 1]))
  }

  /** Drops leading white space. */
  function TrimStart(s: string): (r: string)
    ensures |r| <= |s| && r == s[|s| - |r|..]
    ensures AllSpace(s[..|s| - |r|])
    ensures r == [] || !IsSpace(r[0])
  {
    if s != [] && IsSpace(s[0]) then TrimStart(s[1..]) else s
  }

  /** Drops trailing white space. */
  function TrimEnd(s: string): (r: string)
    ensures |r| <= |s| && r == s[..|r|]
    ensures AllSpace(s[|r|..])
    ensures r == [] || !IsSpace(r[|r| - 1])
  {
    if s != [] && IsSpace(s[|s| - 1]) then TrimEnd(s[..|s| - 1]) else s
  }

  /** `String.prototype.trim`: white space removed from both ends. */
  function Trim(s: string): (r: string)
    ensures IsTrimmed(r) && |r| <= |s|
  {
    var a := TrimStart(s);
    var r := TrimEnd(a);
    assert r == [] || !IsSpace(r[0]) by {
      if r != [] { assert r[0] == a[0]; }
    }
    r
  }

  /**
   * What `trim` removes: the result is a slice of `s`, and everything cut off
   * on either side is white space.
   */
  lemma TrimIsSlice(s: string)
    ensures exists i :: 0 <= i <= |s| - |Trim(s)| && Trim(s) == s[i..i + |Trim(s)|]
                        && AllSpace(s[..i]) && AllSpace(s[i + |Trim(s)|..])
  {
    TrimCut(s, |s| - |TrimStart(s)|);
  }

  /** The cut `trim` makes: its result starts at index `i`, after the leading white space. */
  lemma TrimCut(s: string, i: int)
    requires i == |s| - |TrimStart(s)|
    ensures 0 <= i <= |s| - |Trim(s)| && Trim(s) == s[i..i + |Trim(s)|]
    ensures AllSpace(s[..i]) && AllSpace(s[i + |Trim(s)|..])
  {
    var a := TrimStart(s);
    assert s[i + |Trim(s)|..] == a[|Trim(s)|..];
  }

  /** A string with no white space at its ends is its own trim. */
  lemma {:induction false} TrimOfTrimmed(s: string)
    requires IsTrimmed(s)
    ensures Trim(s) == s
  {
    assert TrimStart(s) == s;
    assert TrimEnd(s) == s;
  }

  /** Trimming twice is trimming once. */
  lemma TrimIdempotent(s: string)
    ensures Trim(Trim(s)) == Trim(s)
  {
    TrimOfTrimmed(Trim(s));
  }

  /** A string of white space only trims to the empty string, and only such strings do. */
  lemma {:induction false} TrimEmptyIffAllSpace(s: string)
    ensures Trim(s) == [] <==> AllSpace(s)
  {
    if AllSpace(s) {
      if s != [] {
        assert AllSpace(s[1..]) by {
          forall k | 0 <= k < |s[1..]| ensures IsSpace(s[1..][k]) { assert s[1..][k] == s[k + 1]; }
        }
        TrimEmptyIffAllSpace(s[1..]);
        assert TrimStart(s) == TrimStart(s[1..]);
      }
    }
  }

  /** Trimming a string without any white space changes nothing. */
  lemma TrimNoSpace(s: string)
    requires NoSpace(s)
    ensures Trim(s) == s
  {
    TrimOfTrimmed(s);
  }

  predicate IsUpperAscii(c: char) { 'A' <= c <= 'Z' }

  /** Lower-cases ASCII letters and leaves every other character unchanged. */
  function LowerAscii(s: string): (r: string)
    ensures |r| == |s|
    ensures forall i :: 0 <= i < |s| ==>
      r[i] == (if IsUpperAscii(s[i]) then (s[i] as int + 32) as char else s[i])
  {
    if s == [] then []
    else [if IsUpperAscii(s[0]) then (s[0] as int + 32) as char else s[0]] + LowerAscii(s[1..])
  }

  /** `sub` occurs in `s` starting at index `i`. */
  predicate OccursAt(s: string, sub: string, i: int) {
    0 <= i <= |s| - |sub| && s[i..i + |sub|] == sub
  }

  /** `String.prototype.includes`: `sub` occurs somewhere in `s`. */
  ghost predicate Contains(s: string, sub: string) {
    exists i :: OccursAt(s, sub, i)
  }

  /** `String.prototype.includes`, computed by scanning from the left. */
  function Includes(s: string, sub: string): (r: bool)
    ensures r <==> Contains(s, sub)
  {
    if |sub| > |s| then false
    else if s[..|sub|] == sub then assert OccursAt(s, sub, 0); true
    else
      var r := Includes(s[1..], sub);
      assert Contains(s, sub) ==> Contains(s[1..], sub) by {
        if Contains(s, sub) {
          var i :| OccursAt(s, sub, i);
          assert i != 0;
          assert s[1..][i - 1..i - 1 + |sub|] == s[i..i + |sub|];
          assert OccursAt(s[1..], sub, i - 1);
        }
      }
      assert Contains(s[1..], sub) ==> Contains(s, sub) by {
        if Contains(s[1..], sub) {
          var i :| OccursAt(s[1..], sub, i);
          assert s[i + 1..i + 1 + |sub|] == s[1..][i..i + |sub|];
          assert OccursAt(s, sub, i + 1);
        }
      }
      r
  }

  /** The string made of `n` copies of `c`. */
  function Repeat(c: char, n: nat): (r: string)
    ensures |r| == n && forall i :: 0 <= i < n ==> r[i] == c
  {
    if n == 0 then [] else [c] + Repeat(c, n - 1)
  }

  /** `seq.join(sep)` over strings. */
  function Join(parts: seq<string>, sep: string): string
  {
    if parts == [] then ""
    else if |parts| == 1 then parts[0]
    else parts[0] + sep + Join(parts[1..], sep)
  }

  /** The number of occurrences of `c` in `s`. */
  function Count(s: string, c: char): nat
  {
    if s == [] then 0 else (if s[0] == c then 1 else 0) + Count(s[1..], c)
  }

  /** Occurrences add up over a concatenation. */
  lemma {:induction false} CountConcat(a: string, b: string, c: char)
    ensures Count(a + b, c) == Count(a, c) + Count(b, c)
  {
    if a != [] {
      assert (a + b)[1..] == a[1..] + b;
      CountConcat(a[1..], b, c);
    } else {
      assert a + b == b;
    }
  }

  /** A character that does not occur is counted zero times. */
  lemma {:induction false} CountAbsent(s: string, c: char)
    requires forall i :: 0 <= i < |s| ==> s[i] != c
    ensures Count(s, c) == 0
  {
    if s != [] { CountAbsent(s[1..], c); }
  }

  // ---------------------------------------------------------------------------
  // split

  /**
   * `s.split(sep)` for a one-character separator: the pieces between the
   * separators, in order, empty pieces included (so "" splits into [""]).
   */
  function Split(s: string, sep: char): (r: seq<string>)
    ensures |r| >= 1
    ensures forall k :: 0 <= k < |r| ==> sep !in r[k]
  {
    if s == [] then [""]
    else
      var rest := Split(s[1..], sep);
      if s[0] == sep then [""] + rest
      else
        var head := [s[0]] + rest[0];
        assert sep !in head by { assert sep !in rest[0]; }
        [head] + rest[1..]
  }

  /** Joining the pieces with the separator gives back the original string. */
  lemma {:induction false} SplitJoin(s: string, sep: char)
    ensures Join(Split(s, sep), [sep]) == s
  {
    if s != [] {
      SplitJoin(s[1..], sep);
      if s[0] == sep { SplitJoinAtSeparator(s, sep); } else { SplitJoinInPiece(s, sep); }
    }
  }

  /** A leading separator opens an empty first piece. */
  lemma SplitJoinAtSeparator(s: string, sep: char)
    requires s != [] && s[0] == sep && Join(Split(s[1..], sep), [sep]) == s[1..]
    ensures Join(Split(s, sep), [sep]) == s
  {
    var rest := Split(s[1..], sep);
    var parts := [""] + rest;
    assert parts[1..] == rest;
    assert s == [s[0]] + s[1..];
  }

  /** Any other leading character extends the first piece. */
  lemma SplitJoinInPiece(s: string, sep: char)
    requires s != [] && s[0] != sep && Join(Split(s[1..], sep), [sep]) == s[1..]
    ensures Join(Split(s, sep), [sep]) == s
  {
    var rest := Split(s[1..], sep);
    assert Split(s, sep) == [[s[0]] + rest[0]] + rest[1..];
    JoinExtendFirst(s[0], rest, [sep]);
    assert s == [s[0]] + s[1..];
  }

  /** Extending the first piece extends the joined text at its front. */
  lemma JoinExtendFirst(c: char, parts: seq<string>, sep: string)
    requires |parts| >= 1
    ensures Join([[c] + parts[0]] + parts[1..], sep) == [c] + Join(parts, sep)
  {
    var q := [[c] + parts[0]] + parts[1..];
    assert q[1..] == parts[1..];
  }

  // ---------------------------------------------------------------------------
  // UTF-16

  /** The UTF-16 code units of one character: one below U+10000, a surrogate pair from there on. */
  function CharUnits(c: char): (r: seq<int>)
    ensures |r| == (if c as int < 0x10000 then 1 else 2)
    ensures forall k :: 0 <= k < |r| ==> 0 <= r[k] < 0x10000
  {
    var n := c as int;
    if n < 0x10000 then [n]
    else [0xD800 + (n - 0x10000) / 0x400, 0xDC00 + (n - 0x10000) % 0x400]
  }

  /** A surrogate pair decodes back to the character it encodes. */
  lemma SurrogatePairDecodes(c: char)
    requires c as int >= 0x10000
    ensures var u := CharUnits(c);
      && 0xD800 <= u[0] < 0xDC00 && 0xDC00 <= u[1] < 0xE000
      && (u[0] - 0xD800) * 0x400 + (u[1] - 0xDC00) + 0x10000 == c as int
  {
  }

  /** The UTF-16 code units of `s`: what `charCodeAt` reads and `length` counts. */
  function CodeUnits(s: string): (r: seq<int>)
    ensures |r| >= |s|
    ensures forall k :: 0 <= k < |r| ==> 0 <= r[k] < 0x10000
  {
    if s == [] then [] else CharUnits(s[0]) + CodeUnits(s[1..])
  }

  /** `s.length`: the number of UTF-16 code units. */
  function Length(s: string): nat { |CodeUnits(s)| }

  /** Code units of a concatenation are the concatenated code units. */
  lemma {:induction false} CodeUnitsConcat(a: string, b: string)
    ensures CodeUnits(a + b) == CodeUnits(a) + CodeUnits(b)
  {
    if a != [] {
      assert (a + b)[1..] == a[1..] + b;
      CodeUnitsConcat(a[1..], b);
    } else {
      assert a + b == b;
    }
  }

  /** Text in the Basic Multilingual Plane has one code unit per character, equal to its code point. */
  lemma {:induction false} CodeUnitsOfBmp(s: string)
    requires forall i :: 0 <= i < |s| ==> s[i] as int < 0x10000
    ensures |CodeUnits(s)| == |s| && Length(s) == |s|
    ensures forall i :: 0 <= i < |s| ==> CodeUnits(s)[i] == s[i] as int
  {
    if s != [] { CodeUnitsOfBmp(s[1..]); }
  }

  // ---------------------------------------------------------------------------
  // templates

  /** The pieces of a template literal, concatenated in order. */
  function Concat(parts: seq<string>): string
  {
    if parts == [] then "" else parts[0] + Concat(parts[1..])
  }

  /** The occurrences of `c` in each piece, summed. */
  function CountEach(parts: seq<string>, c: char): nat
  {
    if parts == [] then 0 else Count(parts[0], c) + CountEach(parts[1..], c)
  }

  /** Counting over a concatenation of pieces is counting piece by piece. */
  lemma {:induction false} CountOfConcat(parts: seq<string>, c: char)
    ensures Count(Concat(parts), c) == CountEach(parts, c)
  {
    if parts != [] {
      CountConcat(parts[0], Concat(parts[1..]), c);
      CountOfConcat(parts[1..], c);
    }
  }

  /** Two templates whose pieces hold the same number of `c` hold the same number in all. */
  lemma {:induction false} CountEachAgree(p: seq<string>, q: seq<string>, c: char)
    requires |p| == |q|
    requires forall i :: 0 <= i < |p| ==> Count(p[i], c) == Count(q[i], c)
    ensures CountEach(p, c) == CountEach(q, c)
  {
    if p != [] {
      assert Count(p[0], c) == Count(q[0], c);
      CountEachAgree(p[1..], q[1..], c);
    }
  }

  /** Two templates whose pieces hold the same number of `c` produce texts with the same number of `c`. */
  lemma ConcatCountAgree(p: seq<string>, q: seq<string>, c: char)
    requires |p| == |q|
    requires forall i :: 0 <= i < |p| ==> Count(p[i], c) == Count(q[i], c)
    ensures Count(Concat(p), c) == Count(Concat(q), c)
  {
    CountEachAgree(p, q, c);
    CountOfConcat(p, c);
    CountOfConcat(q, c);
  }

  /**
   * Two templates that differ only in piece `k`, empty in the second, differ
   * by that piece inserted at one position.
   */
  lemma ConcatInsert(p: seq<string>, q: seq<string>, k: nat)
    requires k < |p| == |q| && q[k] == ""
    requires forall i :: 0 <= i < |p| && i != k ==> p[i] == q[i]
    ensures var j := |Concat(q[..k])|;
      j <= |Concat(q)| && Concat(p) == Concat(q)[..j] + p[k] + Concat(q)[j..]
  {
    ConcatSplit(p, k);
    ConcatSplit(q, k);
    assert p[..k] == q[..k];
    assert p[k + 1..] == q[k + 1..];
    SplitAt(Concat(q[..k]), Concat(q[k + 1..]));
  }

  /** Text framed by the same prefix and suffix determines what stands between them. */
  lemma FrameInjective(a: string, x: string, y: string, b: string)
    requires a + x + b == a + y + b
    ensures x == y
  {
    assert |x| == |y|;
    assert forall i :: 0 <= i < |x| ==> x[i] == (a + x + b)[|a| + i] && y[i] == (a + y + b)[|a| + i];
  }

  /** Cutting a concatenation at the end of its first part gives back the parts. */
  lemma SplitAt(a: string, b: string)
    ensures (a + b)[..|a|] == a && (a + b)[|a|..] == b
  {
  }

  /** A template is its pieces before `k`, piece `k`, and the pieces after it. */
  lemma {:induction false} ConcatSplit(p: seq<string>, k: nat)
    requires k < |p|
    ensures Concat(p) == Concat(p[..k]) + p[k] + Concat(p[k + 1..])
  {
    if k > 0 {
      ConcatSplit(p[1..], k - 1);
      assert p[1..][..k - 1] == p[1..k];
      assert p[..k] == [p[0]] + p[1..k];
      assert p[..k][1..] == p[1..k];
      assert p[1..][k - 1] == p[k] && p[1..][k..] == p[k + 1..];
    } else {
      assert p[..0] == [] && p[1..] == p[k + 1..];
    }
  }
}
