/** The JavaScript values the page works on, and the built-in string and
    typed-array operations it calls.

    A JavaScript string is a sequence of UTF-16 code units: `length`,
    `substring`, `slice`, `trim`, `toLowerCase` and the regular expressions
    without the `u` flag all count and inspect code units, not characters.
    A `Uint8Array` holds values 0..255. */
module JsBuiltins {

  datatype Option<T> = None | Some(value: T)

  datatype Result<T, E> = Success(value: T) | Failure(error: E)

  /** One UTF-16 code unit: the element of a JavaScript string. */
  type CodeUnit = c: int | 0 <= c < 0x1_0000

  type JsString = seq<CodeUnit>

  /** One element of a `Uint8Array`. */
  type Byte = b: int | 0 <= b < 0x100

  function Min(a: int, b: int): int { if a <= b then a else b }

  predicate IsHighSurrogate(c: CodeUnit) { 0xD800 <= c < 0xDC00 }

  predicate IsLowSurrogate(c: CodeUnit) { 0xDC00 <= c < 0xE000 }

  /** Well-formed UTF-16: every high surrogate is immediately followed by a
      low surrogate, and no low surrogate stands on its own. */
  predicate WellFormed(s: JsString)
    decreases |s|
  {
    if s == [] then true
    else if IsHighSurrogate(s[0]) then |s| >= 2 && IsLowSurrogate(s[1]) && WellFormed(s[2..])
    else !IsLowSurrogate(s[0]) && WellFormed(s[1..])
  }

  /** The JavaScript string a source literal denotes. Every literal the
      modelled code uses lies in the Basic Multilingual Plane, where a character
      is one code unit; a character beyond it (never used) is mapped to U+FFFD. */
  function Str(s: string): JsString
  {
    seq(|s|, i requires 0 <= i < |s| => if s[i] as int < 0x1_0000 then s[i] as int else 0xFFFD)
  }

  /** A string without surrogate code units is well-formed. */
  lemma {:induction false} NoSurrogatesWellFormed(s: JsString)
    requires forall i :: 0 <= i < |s| ==> !IsHighSurrogate(s[i]) && !IsLowSurrogate(s[i])
    ensures WellFormed(s)
    decreases |s|
  {
    if s != [] {
      NoSurrogatesWellFormed(s[1..]);
    }
  }

  /** Every string written in the source is well-formed UTF-16: Dafny characters
      are Unicode scalar values, which exclude the surrogate range. */
  lemma StrWellFormed(s: string)
    ensures WellFormed(Str(s))
  {
    NoSurrogatesWellFormed(Str(s));
  }

  /** Joining two well-formed strings gives a well-formed string. */
  lemma {:induction false} ConcatWellFormed(a: JsString, b: JsString)
    requires WellFormed(a) && WellFormed(b)
    ensures WellFormed(a + b)
    decreases |a|
  {
    if a != [] {
      var ab := a + b;
      assert ab[0] == a[0];
      if IsHighSurrogate(a[0]) {
        assert ab[1] == a[1];
        assert ab[2..] == a[2..] + b;
        ConcatWellFormed(a[2..], b);
      } else {
        assert ab[1..] == a[1..] + b;
        ConcatWellFormed(a[1..], b);
      }
    } else {
      assert a + b == b;
    }
  }

  /** A prefix of a well-formed string is well-formed unless the cut falls
      between the two halves of a surrogate pair. */
  lemma {:induction false} PrefixWellFormed(s: JsString, n: nat)
    requires WellFormed(s) && n <= |s|
    requires n == 0 || !IsHighSurrogate(s[n - 1])
    ensures WellFormed(s[..n])
    decreases |s|
  {
    if n > 0 {
      if IsHighSurrogate(s[0]) {
        PrefixWellFormed(s[2..], n - 2);
        assert s[..n][2..] == s[2..][..n - 2];
      } else {
        PrefixWellFormed(s[1..], n - 1);
        assert s[..n][1..] == s[1..][..n - 1];
      }
    }
  }

  /** `String.prototype.substring(begin, end)` and `TypedArray.prototype.slice(begin, end)`
      for non-negative arguments with begin <= end: both positions are clamped
      to the length, and an empty range gives an empty result. */
  function ClampedSlice<T>(s: seq<T>, begin: nat, end: nat): (r: seq<T>)
    ensures |r| == if Min(begin, |s|) < Min(end, |s|) then Min(end, |s|) - Min(begin, |s|) else 0
    ensures forall k :: 0 <= k < |r| ==> r[k] == s[begin + k]
    ensures end <= |s| && begin <= end ==> r == s[begin..end]
  {
    var b := Min(begin, |s|);
    var e := Min(end, |s|);
    if b < e then s[b..e] else []
  }

  /** ASCII part of `toLowerCase`: maps 'A'..'Z' to 'a'..'z'. */
  function LowerUnit(c: CodeUnit): CodeUnit
  {
    if 'A' as int <= c <= 'Z' as int then c + ('a' as int - 'A' as int) else c
  }

  /** Same length; 'A'..'Z' become 'a'..'z', every other code unit is kept, and
      no upper-case ASCII letter is left. */
  function AsciiLower(s: JsString): (r: JsString)
    ensures |r| == |s|
    ensures forall i :: 0 <= i < |s| ==>
      if 'A' as int <= s[i] <= 'Z' as int then r[i] == s[i] + 32 else r[i] == s[i]
    ensures forall i :: 0 <= i < |r| ==> !('A' as int <= r[i] <= 'Z' as int)
  {
    seq(|s|, i requires 0 <= i < |s| => LowerUnit(s[i]))
  }

  /** Lowering twice is lowering once. */
  lemma AsciiLowerIdempotent(s: JsString)
    ensures AsciiLower(AsciiLower(s)) == AsciiLower(s)
  {
    var l := AsciiLower(s);
    forall i | 0 <= i < |s|
      ensures AsciiLower(l)[i] == l[i]
    {
      assert l[i] == LowerUnit(s[i]);
    }
  }

  /** ECMAScript WhiteSpace and LineTerminator code points, the ones `trim` removes. */
  predicate IsWhitespace(c: CodeUnit)
  {
    || c == 0x09 || c == 0x0A || c == 0x0B || c == 0x0C || c == 0x0D || c == 0x20
    || c == 0xA0 || c == 0x1680 || (0x2000 <= c <= 0x200A) || c == 0x2028 || c == 0x2029
    || c == 0x202F || c == 0x205F || c == 0x3000 || c == 0xFEFF
  }

  /** The string without its leading whitespace. */
  function TrimStart(s: JsString): (r: JsString)
    ensures |r| <= |s| && r == s[|s| - |r|..]
    ensures forall k :: 0 <= k < |s| - |r| ==> IsWhitespace(s[k])
    ensures r != [] ==> !IsWhitespace(r[0])
    decreases |s|
  {
    if s != [] && IsWhitespace(s[0]) then TrimStart(s[1..]) else s
  }

  /** The string without its trailing whitespace. */
  function TrimEnd(s: JsString): (r: JsString)
    ensures |r| <= |s| && r == s[..|r|]
    ensures forall k :: |r| <= k < |s| ==> IsWhitespace(s[k])
    ensures r != [] ==> !IsWhitespace(r[|r| - 1])
    decreases |s|
  {
    if s != [] && IsWhitespace(s[|s| - 1]) then TrimEnd(s[..|s| - 1]) else s
  }

  /** `s[i..j]` is what trimming `s` keeps: everything before `i` and from `j` on
      is whitespace, and a non-empty middle neither starts nor ends with it. */
  predicate TrimmedAt(s: JsString, i: int, j: int)
  {
    && 0 <= i <= j <= |s|
    && (forall k :: 0 <= k < i ==> IsWhitespace(s[k]))
    && (forall k :: j <= k < |s| ==> IsWhitespace(s[k]))
    && (i < j ==> !IsWhitespace(s[i]) && !IsWhitespace(s[j - 1]))
  }

  /** `String.prototype.trim`: it keeps a contiguous middle part of the string
      that neither starts nor ends with whitespace, and removes nothing but
      whitespace. */
  function Trim(s: JsString): (r: JsString)
    ensures exists i, j :: TrimmedAt(s, i, j) && r == s[i..j]
  {
    var t := TrimStart(s);
    MiddleIsTrimmed(s, t, TrimEnd(t));
    TrimEnd(t)
  }

  /** What `TrimStart` and then `TrimEnd` promise, put together: `t` is `s`
      without leading whitespace and `r` is `t` without trailing whitespace. */
  lemma MiddleIsTrimmed(s: JsString, t: JsString, r: JsString)
    requires |t| <= |s| && t == s[|s| - |t|..]
    requires forall k :: 0 <= k < |s| - |t| ==> IsWhitespace(s[k])
    requires t != [] ==> !IsWhitespace(t[0])
    requires |r| <= |t| && r == t[..|r|]
    requires forall k :: |r| <= k < |t| ==> IsWhitespace(t[k])
    requires r != [] ==> !IsWhitespace(r[|r| - 1])
    ensures TrimmedAt(s, |s| - |t|, |s| - |t| + |r|) && r == s[|s| - |t|..|s| - |t| + |r|]
  {
    var i := |s| - |t|;
    var j := i + |r|;
    assert r == s[i..j];
    forall k | j <= k < |s|
      ensures IsWhitespace(s[k])
    {
      assert s[k] == t[k - i];
    }
    if i < j {
      assert s[i] == r[0] && s[j - 1] == r[|r| - 1];
    }
  }

  /** `!s.trim()`: the trimmed string is empty, hence falsy. */
  predicate IsBlank(s: JsString)
  {
    Trim(s) == []
  }

  /** A string is blank exactly when every code unit in it is whitespace. */
  lemma BlankIffAllWhitespace(s: JsString)
    ensures IsBlank(s) <==> forall k :: 0 <= k < |s| ==> IsWhitespace(s[k])
  {
    var t := TrimStart(s);
    if t != [] {
      assert !IsWhitespace(t[0]);
    }
  }
}
