/** The JavaScript string built-ins the sync code relies on: `trim()`, the
    regular-expression class `\s`, `toLowerCase()`, `replace(/\s+/g, '-')`,
    and the UTF-16 code units that `length` and `charCodeAt` count. A Dafny
    `string` is a sequence of Unicode scalar values. */
module JsText {

  /** The WhiteSpace and LineTerminator code points of ECMA-262: the set that
      both `String.prototype.trim` and the class `\s` use. */
  predicate IsWhiteSpace(c: char) {
    c == '\t' || c == '\n' || c == '\U{000B}' || c == '\U{000C}' || c == '\r' || c == ' '
    || c == '\U{00A0}' || c == '\U{1680}' || ('\U{2000}' <= c <= '\U{200A}')
    || c == '\U{2028}' || c == '\U{2029}' || c == '\U{202F}' || c == '\U{205F}'
    || c == '\U{3000}' || c == '\U{FEFF}'
  }

  /** Every character is white space (true of the empty string). */
  predicate Blank(s: string) {
    forall i | 0 <= i < |s| :: IsWhiteSpace(s[i])
  }

  /** Drops the leading white space: the result is the suffix of `s` that
      starts at its first non-white-space character. */
  function TrimStart(s: string): (r: string)
    ensures |r| <= |s| && r == s[|s| - |r|..]
    ensures forall i | 0 <= i < |s| - |r| :: IsWhiteSpace(s[i])
    ensures r == [] || !IsWhiteSpace(r[0])
    ensures s != [] && IsWhiteSpace(s[0]) ==> |r| < |s|
  {
    if s != [] && IsWhiteSpace(s[0]) then TrimStart(s[1..]) else s
  }

  /** Drops the trailing white space: the result is the prefix of `s` that
      ends at its last non-white-space character. */
  function TrimEnd(s: string): (r: string)
    ensures |r| <= |s| && r == s[..|r|]
    ensures forall i | |r| <= i < |s| :: IsWhiteSpace(s[i])
    ensures r == [] || !IsWhiteSpace(r[|r| - 1])
  {
    if s != [] && IsWhiteSpace(s[|s| - 1]) then TrimEnd(s[..|s| - 1]) else s
  }

  /** `s.trim()`. */
  function Trim(s: string): (r: string)
    ensures r == [] || (!IsWhiteSpace(r[0]) && !IsWhiteSpace(r[|r| - 1]))
  {
    TrimEnd(TrimStart(s))
  }

  /** The number of white-space characters `trim()` cuts from the front. */
  function LeadingWhiteSpace(s: string): nat
  {
    |s| - |TrimStart(s)|
  }

  /** `s.trim()` is a slice of `s` with only white space cut away on either side. */
  lemma TrimIsSlice(s: string)
    ensures LeadingWhiteSpace(s) + |Trim(s)| <= |s|
    ensures Trim(s) == s[LeadingWhiteSpace(s)..LeadingWhiteSpace(s) + |Trim(s)|]
    ensures forall i | 0 <= i < LeadingWhiteSpace(s) :: IsWhiteSpace(s[i])
    ensures forall i | LeadingWhiteSpace(s) + |Trim(s)| <= i < |s| :: IsWhiteSpace(s[i])
  {
    var t := TrimStart(s);
    var k := |s| - |t|;
    var r := TrimEnd(t);
    assert Trim(s) == r && LeadingWhiteSpace(s) == k;
    assert t == s[k..] && r == t[..|r|];
    assert r == s[k..k + |r|];
    TrailingWhiteSpace(s, k, t, |r|);
  }

  /** White space after the end of the trimmed slice of the suffix `t` is
      white space of `s` itself. */
  lemma TrailingWhiteSpace(s: string, k: nat, t: string, n: nat)
    requires k <= |s| && t == s[k..] && n <= |t|
    requires forall i | n <= i < |t| :: IsWhiteSpace(t[i])
    ensures forall i | k + n <= i < |s| :: IsWhiteSpace(s[i])
  {
    forall i | k + n <= i < |s| ensures IsWhiteSpace(s[i]) {
      assert s[i] == t[i - k];
    }
  }

  /** `s.trim()` is empty exactly when `s` is all white space. */
  lemma TrimEmptyIffBlank(s: string)
    ensures Trim(s) == [] <==> Blank(s)
  {
    var t := TrimStart(s);
    var k := |s| - |t|;
    if Trim(s) == [] {
      assert t == [];
    } else {
      assert !IsWhiteSpace(t[0]);
      assert t[0] == s[k];
    }
  }

  /** Trimming text that has no white space at either end leaves it alone. */
  lemma TrimUntrimmable(s: string)
    requires s == [] || (!IsWhiteSpace(s[0]) && !IsWhiteSpace(s[|s| - 1]))
    ensures Trim(s) == s
  {
  }

  /** Trimming twice is trimming once. */
  lemma TrimIdempotent(s: string)
    ensures Trim(Trim(s)) == Trim(s)
  {
    TrimUntrimmable(Trim(s));
  }

  /** A character that is not an upper-case ASCII letter. */
  predicate NotUpperAscii(c: char) {
    !('A' <= c <= 'Z')
  }

  /** Lower-cases one character (ASCII letters only). */
  function LowerChar(c: char): (r: char)
    ensures NotUpperAscii(r)
    ensures IsWhiteSpace(r) <==> IsWhiteSpace(c)
    ensures NotUpperAscii(c) ==> r == c
  {
    if 'A' <= c <= 'Z' then (c as int + 32) as char else c
  }

  /** `s.toLowerCase()`, for the ASCII letters. */
  function ToLowerAscii(s: string): (r: string)
    ensures |r| == |s|
    ensures forall i | 0 <= i < |s| :: r[i] == LowerChar(s[i])
  {
    seq(|s|, i requires 0 <= i < |s| => LowerChar(s[i]))
  }

  /** `s.replace(/\s+/g, '-')`: every maximal run of white space becomes one `-`. */
  function ReplaceWhiteSpaceRuns(s: string): (r: string)
    ensures forall i | 0 <= i < |r| :: !IsWhiteSpace(r[i])
    ensures |r| <= |s|
    decreases |s|
  {
    if s == [] then []
    else if IsWhiteSpace(s[0]) then ['-'] + ReplaceWhiteSpaceRuns(TrimStart(s))
    else [s[0]] + ReplaceWhiteSpaceRuns(s[1..])
  }

  /** The replacement only writes `-` or characters of `s`. */
  lemma {:induction false} ReplaceKeepsCharacters(s: string)
    ensures forall c | c in ReplaceWhiteSpaceRuns(s) :: c == '-' || c in s
    decreases |s|
  {
    if s != [] {
      if IsWhiteSpace(s[0]) {
        var t := TrimStart(s);
        ReplaceKeepsCharacters(t);
        assert forall c | c in t :: c in s;
      } else {
        ReplaceKeepsCharacters(s[1..]);
        assert forall c | c in s[1..] :: c in s;
      }
    }
  }

  /** `TrimStart` removes exactly a leading run of white space. */
  lemma {:induction false} TrimStartRun(w: string, b: string)
    requires Blank(w)
    requires b == [] || !IsWhiteSpace(b[0])
    ensures TrimStart(w + b) == b
    decreases |w|
  {
    if w == [] {
      assert w + b == b;
    } else {
      assert (w + b)[1..] == w[1..] + b;
      TrimStartRun(w[1..], b);
    }
  }

  /** One maximal run of white space becomes exactly one `-`; the text before
      it is kept as it is and the text after it is replaced in turn. */
  lemma {:induction false} ReplaceOneRun(a: string, w: string, b: string)
    requires forall i | 0 <= i < |a| :: !IsWhiteSpace(a[i])
    requires w != [] && Blank(w)
    requires b == [] || !IsWhiteSpace(b[0])
    ensures ReplaceWhiteSpaceRuns(a + w + b) == a + "-" + ReplaceWhiteSpaceRuns(b)
    decreases |a|
  {
    if a == [] {
      assert a + w + b == w + b;
      TrimStartRun(w, b);
      ReplaceAtRun(w + b);
    } else {
      NoWhiteSpaceTail(a);
      ReplaceOneRun(a[1..], w, b);
      ConsSplit(a, w, b, ReplaceWhiteSpaceRuns(b));
      ReplaceAtOther(a[0], a[1..] + w + b);
    }
  }

  /** Text without white space: its first character is not white space and
      neither is any character of the rest. */
  lemma NoWhiteSpaceTail(a: string)
    requires a != [] && forall i | 0 <= i < |a| :: !IsWhiteSpace(a[i])
    ensures !IsWhiteSpace(a[0])
    ensures forall i | 0 <= i < |a[1..]| :: !IsWhiteSpace(a[1..][i])
  {
    forall i | 0 <= i < |a[1..]| ensures !IsWhiteSpace(a[1..][i]) {
      assert a[1..][i] == a[i + 1];
    }
  }

  /** Splitting the first character off the front of two concatenations. */
  lemma ConsSplit(a: string, w: string, b: string, r: string)
    requires a != []
    ensures a + w + b == [a[0]] + (a[1..] + w + b)
    ensures a + "-" + r == [a[0]] + (a[1..] + "-" + r)
  {
    assert a == [a[0]] + a[1..];
  }

  /** At white space, the whole run becomes one `-`. */
  lemma ReplaceAtRun(s: string)
    requires s != [] && IsWhiteSpace(s[0])
    ensures ReplaceWhiteSpaceRuns(s) == "-" + ReplaceWhiteSpaceRuns(TrimStart(s))
  {
  }

  /** Any other character is copied. */
  lemma ReplaceAtOther(c: char, t: string)
    requires !IsWhiteSpace(c)
    ensures ReplaceWhiteSpaceRuns([c] + t) == [c] + ReplaceWhiteSpaceRuns(t)
  {
    assert ([c] + t)[0] == c && ([c] + t)[1..] == t;
  }

  /** Text with no white space in it is not changed by the replacement. */
  lemma {:induction false} ReplaceWithoutWhiteSpace(s: string)
    requires forall i | 0 <= i < |s| :: !IsWhiteSpace(s[i])
    ensures ReplaceWhiteSpaceRuns(s) == s
    decreases |s|
  {
    if s != [] {
      ReplaceWithoutWhiteSpace(s[1..]);
    }
  }

  /** The UTF-16 code units of one character: itself below U+10000, a
      surrogate pair above. */
  function CodeUnits(c: char): (r: seq<int>)
    ensures 1 <= |r| <= 2
    ensures forall k | 0 <= k < |r| :: 0 <= r[k] < 0x1_0000
    ensures |r| == 1 <==> c as int < 0x1_0000
  {
    if c as int < 0x1_0000 then [c as int]
    else [0xD800 + (c as int - 0x1_0000) / 0x400, 0xDC00 + (c as int - 0x1_0000) % 0x400]
  }

  /** The UTF-16 code units of `s`: what `s.length` counts and `s.charCodeAt(i)` reads. */
  function Utf16Units(s: string): (r: seq<int>)
    ensures |r| >= |s|
    ensures forall k | 0 <= k < |r| :: 0 <= r[k] < 0x1_0000
  {
    if s == [] then [] else CodeUnits(s[0]) + Utf16Units(s[1..])
  }

  /** Reads the code units back: the inverse of `Utf16Units`. */
  function DecodeUtf16(us: seq<int>): seq<int>
  {
    if us == [] then []
    else if 0xD800 <= us[0] < 0xDC00 && |us| >= 2 then
      [0x1_0000 + (us[0] - 0xD800) * 0x400 + (us[1] - 0xDC00)] + DecodeUtf16(us[2..])
    else [us[0]] + DecodeUtf16(us[1..])
  }

  /** The code points of `s`. */
  function CodePoints(s: string): (r: seq<int>)
    ensures |r| == |s|
  {
    seq(|s|, i requires 0 <= i < |s| => s[i] as int)
  }

  /** Decoding the UTF-16 code units of `s` gives back the code points of `s`. */
  lemma {:induction false} Utf16RoundTrip(s: string)
    ensures DecodeUtf16(Utf16Units(s)) == CodePoints(s)
  {
    if s != [] {
      Utf16RoundTrip(s[1..]);
      var cu := CodeUnits(s[0]);
      var us := Utf16Units(s);
      assert us == cu + Utf16Units(s[1..]);
      if |cu| == 2 {
        assert us[2..] == Utf16Units(s[1..]);
      } else {
        assert us[1..] == Utf16Units(s[1..]);
      }
      assert CodePoints(s) == [s[0] as int] + CodePoints(s[1..]);
    }
  }

  /** Code points below U+10000 are one code unit each, so `length` agrees
      with the number of characters. */
  lemma {:induction false} Utf16LengthBmp(s: string)
    requires forall i | 0 <= i < |s| :: s[i] as int < 0x1_0000
    ensures |Utf16Units(s)| == |s|
  {
    if s != [] {
      Utf16LengthBmp(s[1..]);
    }
  }
}
