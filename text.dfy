/** String helpers: the JavaScript string methods the application relies on
    (`startsWith`, `includes`, `toLowerCase` restricted to ASCII, `trim`). */
module Text {

  /** `s.startsWith(p)`. */
  predicate StartsWith(s: string, p: string) {
    |p| <= |s| && s[..|p|] == p
  }

  /** `s.includes(w)`: `w` occurs in `s` at some position. */
  predicate Contains(s: string, w: string)
    decreases |s|
  {
    StartsWith(s, w) || (s != [] && Contains(s[1..], w))
  }

  /** An occurrence at some index makes `Contains` hold. */
  lemma {:induction false} ContainsIff(s: string, w: string, i: nat)
    requires i <= |s| && StartsWith(s[i..], w)
    ensures Contains(s, w)
  {
    if i > 0 {
      assert s[1..][i - 1..] == s[i..];
      ContainsIff(s[1..], w, i - 1);
    }
  }

  /** Conversely, whenever `Contains` holds the word occurs at some index. */
  lemma {:induction false} ContainsWitness(s: string, w: string)
    requires Contains(s, w)
    ensures exists i :: 0 <= i <= |s| && StartsWith(s[i..], w)
  {
    if StartsWith(s, w) {
      assert s[0..] == s;
    } else {
      ContainsWitness(s[1..], w);
      var i :| 0 <= i <= |s[1..]| && StartsWith(s[1..][i..], w);
      assert s[1..][i..] == s[i + 1..];
    }
  }

  /** ASCII lower-casing of one character. */
  function LowerChar(c: char): char {
    if 'A' <= c <= 'Z' then (c as int + 32) as char else c
  }

  /** `s.toLowerCase()` on the ASCII range. */
  function ToLower(s: string): (r: string)
    ensures |r| == |s|
    ensures forall i :: 0 <= i < |r| ==> !('A' <= r[i] <= 'Z')
    ensures forall i :: 0 <= i < |s| ==> (r[i] == s[i] <==> !('A' <= s[i] <= 'Z'))
    ensures forall i :: 0 <= i < |s| && 'A' <= s[i] <= 'Z' ==> r[i] as int - 'a' as int == s[i] as int - 'A' as int
  {
    seq(|s|, i requires 0 <= i < |s| => LowerChar(s[i]))
  }

  /** Lower-casing twice is lower-casing once. */
  lemma ToLowerIdempotent(s: string)
    ensures ToLower(ToLower(s)) == ToLower(s)
  {
    var t := ToLower(s);
    assert forall i :: 0 <= i < |t| ==> LowerChar(t[i]) == t[i];
  }

  /** Lower-casing both sides keeps every occurrence. */
  lemma {:induction false} ContainsToLower(s: string, w: string)
    requires Contains(s, w)
    ensures Contains(ToLower(s), ToLower(w))
  {
    if StartsWith(s, w) {
      assert ToLower(s)[..|w|] == ToLower(s[..|w|]);
    } else {
      ContainsToLower(s[1..], w);
      assert ToLower(s)[1..] == ToLower(s[1..]);
    }
  }

  /** ECMAScript WhiteSpace and LineTerminator code points, the set `trim` strips. */
  predicate IsJsWhitespace(c: char) {
    c == ' ' || c == '\t' || c == '\n' || c == '\r' || c == '\U{000B}' || c == '\U{000C}'
    || c == '\U{00A0}' || c == '\U{1680}' || ('\U{2000}' <= c <= '\U{200A}')
    || c == '\U{2028}' || c == '\U{2029}' || c == '\U{202F}' || c == '\U{205F}'
    || c == '\U{3000}' || c == '\U{FEFF}'
  }

  function TrimStart(s: string): (r: string)
    ensures |r| <= |s| && r == s[|s| - |r|..]
    ensures forall i :: 0 <= i < |s| - |r| ==> IsJsWhitespace(s[i])
    ensures r != [] ==> !IsJsWhitespace(r[0])
  {
    if s != [] && IsJsWhitespace(s[0]) then TrimStart(s[1..]) else s
  }

  function TrimEnd(s: string): (r: string)
    ensures |r| <= |s| && r == s[..|r|]
    ensures forall i :: |r| <= i < |s| ==> IsJsWhitespace(s[i])
    ensures r != [] ==> !IsJsWhitespace(r[|r| - 1])
  {
    if s != [] && IsJsWhitespace(s[|s| - 1]) then TrimEnd(s[..|s| - 1]) else s
  }

  /** `r` is the part of `s` starting at `a` with only whitespace on both sides of it. */
  predicate TrimmedAt(s: string, r: string, a: int) {
    0 <= a <= |s| - |r| && r == s[a..a + |r|]
    && (forall i :: 0 <= i < a ==> IsJsWhitespace(s[i]))
    && (forall i :: a + |r| <= i < |s| ==> IsJsWhitespace(s[i]))
  }

  /** `s.trim()`: `s` without its leading and trailing whitespace. */
  function Trim(s: string): (r: string)
    ensures |r| <= |s|
    ensures r == "" <==> forall i :: 0 <= i < |s| ==> IsJsWhitespace(s[i])
    ensures r != "" ==> !IsJsWhitespace(r[0]) && !IsJsWhitespace(r[|r| - 1])
    ensures exists a :: TrimmedAt(s, r, a)
  {
    var t := TrimStart(s);
    var r := TrimEnd(t);
    assert r == "" ==> t == "";
    var a := |s| - |t|;
    assert r == s[a..a + |r|] by {
      assert t == s[a..];
    }
    assert forall i :: a + |r| <= i < |s| ==> IsJsWhitespace(s[i]) by {
      forall i | a + |r| <= i < |s| ensures IsJsWhitespace(s[i]) {
        assert s[i] == t[i - a];
      }
    }
    assert TrimmedAt(s, r, a);
    r
  }
}
