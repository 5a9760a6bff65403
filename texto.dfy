/** The string primitives the search pipeline relies on, as JavaScript
    defines them on strings: `toLowerCase`, `trim`, `includes` and the
    relational `<`. A JavaScript string is modelled as a `seq<char>`. */
module Texto {

  // ---------------------------------------------------------------------
  // toLowerCase
  // ---------------------------------------------------------------------

  /** The capitals that `toLowerCase` folds in this model: ASCII A-Z and the
      Latin-1 capitals U+00C0-U+00DE except the multiplication sign U+00D7
      (which covers the accented letters of Portuguese text). */
  predicate IsUpper(c: char) {
    ('A' <= c <= 'Z') || ('\U{C0}' <= c <= '\U{DE}' && c != '\U{D7}')
  }

  /** One character folded to lower case: every capital above sits exactly
      32 code points below its small letter. */
  function LowerChar(c: char): (d: char)
    ensures !IsUpper(d)
    ensures IsUpper(c) ==> d as int == c as int + 32
    ensures !IsUpper(c) ==> d == c
  {
    if IsUpper(c) then (c as int + 32) as char else c
  }

  /** `String.prototype.toLowerCase`: folds every character on its own. */
  function ToLower(s: string): (r: string) {
    seq(|s|, i requires 0 <= i < |s| => LowerChar(s[i]))
  }

  predicate NoUpper(s: string) {
    forall i :: 0 <= i < |s| ==> !IsUpper(s[i])
  }

  /** Lower-casing keeps the length, folds position by position, leaves no
      capital behind, and changes nothing in a string that has none. */
  lemma ToLowerSpec(s: string)
    ensures |ToLower(s)| == |s|
    ensures forall i :: 0 <= i < |s| ==> ToLower(s)[i] == LowerChar(s[i])
    ensures NoUpper(ToLower(s))
    ensures NoUpper(s) ==> ToLower(s) == s
  {
  }

  /** Folding twice is folding once. */
  lemma ToLowerIdempotent(s: string)
    ensures ToLower(ToLower(s)) == ToLower(s)
  {
    ToLowerSpec(s);
    ToLowerSpec(ToLower(s));
  }

  // ---------------------------------------------------------------------
  // trim
  // ---------------------------------------------------------------------

  /** The characters `String.prototype.trim` strips: ECMAScript's WhiteSpace
      (tab, vertical tab, form feed, space, no-break space, the byte order
      mark and every other space separator of Unicode category Zs) and its
      LineTerminator (line feed, carriage return, U+2028, U+2029). */
  predicate IsSpace(c: char) {
    || c == '\t' || c == '\n' || c == '\U{B}' || c == '\U{C}' || c == '\r'
    || c == ' ' || c == '\U{A0}' || c == '\U{1680}'
    || ('\U{2000}' <= c <= '\U{200A}')
    || c == '\U{2028}' || c == '\U{2029}' || c == '\U{202F}' || c == '\U{205F}'
    || c == '\U{3000}' || c == '\U{FEFF}'
  }

  predicate AllSpace(s: string) {
    forall i :: 0 <= i < |s| ==> IsSpace(s[i])
  }

  function TrimStart(s: string): (r: string)
    decreases |s|
  {
    if |s| > 0 && IsSpace(s[0]) then TrimStart(s[1..]) else s
  }

  function TrimEnd(s: string): (r: string)
    decreases |s|
  {
    if |s| > 0 && IsSpace(s[|s| - 1]) then TrimEnd(s[..|s| - 1]) else s
  }

  /** `String.prototype.trim`: strips white space from both ends. */
  function Trim(s: string): (r: string) {
    TrimEnd(TrimStart(s))
  }

  /** TrimStart drops a run of white space at the front of `s` and stops at
      the first character that is not white space. */
  lemma {:induction false} TrimStartSpec(s: string)
    ensures |TrimStart(s)| <= |s|
    ensures TrimStart(s) == s[|s| - |TrimStart(s)|..]
    ensures AllSpace(s[..|s| - |TrimStart(s)|])
    ensures TrimStart(s) == [] || !IsSpace(TrimStart(s)[0])
    decreases |s|
  {
    if |s| > 0 && IsSpace(s[0]) {
      TrimStartSpec(s[1..]);
      var n := |s| - |TrimStart(s)|;
      assert s[1..][..n - 1] == s[1..n];
      assert forall i :: 0 < i < n ==> s[..n][i] == s[1..][..n - 1][i - 1];
    }
  }

  /** TrimEnd drops a run of white space at the back of `s` and stops at the
      last character that is not white space. */
  lemma {:induction false} TrimEndSpec(s: string)
    ensures |TrimEnd(s)| <= |s|
    ensures TrimEnd(s) == s[..|TrimEnd(s)|]
    ensures AllSpace(s[|TrimEnd(s)|..])
    ensures TrimEnd(s) == [] || !IsSpace(TrimEnd(s)[|TrimEnd(s)| - 1])
    decreases |s|
  {
    if |s| > 0 && IsSpace(s[|s| - 1]) {
      var p := s[..|s| - 1];
      TrimEndSpec(p);
      var n := |TrimEnd(s)|;
      assert p[..n] == s[..n];
      assert s[n..] == p[n..] + [s[|s| - 1]];
    }
  }

  /** Trim keeps exactly the slice of `s` between a white-space prefix and
      a white-space suffix, and that slice neither starts nor ends with
      white space. */
  lemma TrimSpec(s: string)
    ensures var i, j := |s| - |TrimStart(s)|, |s| - |TrimStart(s)| + |Trim(s)|;
      && 0 <= i <= j <= |s|
      && Trim(s) == s[i..j]
      && AllSpace(s[..i]) && AllSpace(s[j..])
      && (Trim(s) == [] || (!IsSpace(Trim(s)[0]) && !IsSpace(Trim(s)[|Trim(s)| - 1])))
  {
    var t := TrimStart(s);
    TrimStartSpec(s);
    TrimEndSpec(t);
    var i, j := |s| - |t|, |s| - |t| + |Trim(s)|;
    assert t[|Trim(s)|..] == s[j..];
    assert t[..|Trim(s)|] == s[i..j];
  }

  /** A string trims to nothing exactly when it is all white space. */
  lemma {:induction false} TrimEmptyIffAllSpace(s: string)
    ensures Trim(s) == [] <==> AllSpace(s)
  {
    TrimSpec(s);
    var i := |s| - |TrimStart(s)|;
    if Trim(s) == [] {
      assert forall k :: 0 <= k < |s| ==> (k < i ==> s[k] == s[..i][k]) && (k >= i ==> s[k] == s[i..][k - i]);
    } else {
      assert !IsSpace(s[i]);
    }
  }

  // ---------------------------------------------------------------------
  // includes
  // ---------------------------------------------------------------------

  predicate IsPrefix(p: string, s: string) {
    |p| <= |s| && s[..|p|] == p
  }

  /** `String.prototype.includes(needle)`: whether `needle` occurs in
      `hay`; the empty needle occurs in every string. */
  predicate Includes(hay: string, needle: string)
    decreases |hay|
  {
    IsPrefix(needle, hay) || (|hay| > 0 && Includes(hay[1..], needle))
  }

  /** `needle` occurs in `hay` starting at position `i`. */
  predicate OccursAt(hay: string, needle: string, i: int) {
    0 <= i && i + |needle| <= |hay| && hay[i..i + |needle|] == needle
  }

  /** An occurrence at any position makes `includes` hold. */
  lemma {:induction false} OccursAtIncludes(hay: string, needle: string, i: int)
    requires OccursAt(hay, needle, i)
    ensures Includes(hay, needle)
    decreases i
  {
    if i == 0 {
      assert IsPrefix(needle, hay);
    } else {
      assert hay[1..][i - 1..i - 1 + |needle|] == hay[i..i + |needle|];
      OccursAtIncludes(hay[1..], needle, i - 1);
    }
  }

  /** When `includes` holds, the needle occurs at some position. */
  lemma {:induction false} IncludesOccursAt(hay: string, needle: string) returns (i: int)
    requires Includes(hay, needle)
    ensures OccursAt(hay, needle, i)
    decreases |hay|
  {
    if IsPrefix(needle, hay) {
      i := 0;
    } else {
      var k := IncludesOccursAt(hay[1..], needle);
      assert hay[k + 1..k + 1 + |needle|] == hay[1..][k..k + |needle|];
      i := k + 1;
    }
  }

  /** Includes agrees with the definition of a substring by position. */
  lemma IncludesSpec(hay: string, needle: string)
    ensures Includes(hay, needle) <==> exists i :: OccursAt(hay, needle, i)
  {
    if Includes(hay, needle) {
      var i := IncludesOccursAt(hay, needle);
    } else {
      forall i ensures !OccursAt(hay, needle, i) {
        if OccursAt(hay, needle, i) {
          OccursAtIncludes(hay, needle, i);
        }
      }
    }
  }

  /** Every character of an included needle is a character of the text. */
  lemma {:induction false} IncludesChars(hay: string, needle: string, ch: char)
    requires ch in needle
    ensures Includes(hay, needle) ==> ch in hay
    decreases |hay|
  {
    if IsPrefix(needle, hay) {
      var k :| 0 <= k < |needle| && needle[k] == ch;
      assert hay[k] == hay[..|needle|][k];
    } else if |hay| > 0 {
      IncludesChars(hay[1..], needle, ch);
      assert hay == [hay[0]] + hay[1..];
    }
  }

  /** The empty needle is found in every string. */
  lemma IncludesEmpty(hay: string)
    ensures Includes(hay, [])
  {
    assert IsPrefix([], hay);
  }

  // ---------------------------------------------------------------------
  // The relational operator `<` on strings
  // ---------------------------------------------------------------------

  /** `a < b` on two strings: the first position where they differ decides;
      when one is a prefix of the other, the shorter one is smaller. */
  predicate Less(a: string, b: string)
    decreases |a|
  {
    if b == [] then false
    else if a == [] then true
    else if a[0] != b[0] then a[0] < b[0]
    else Less(a[1..], b[1..])
  }

  lemma {:induction false} LessIrreflexive(a: string)
    ensures !Less(a, a)
    decreases |a|
  {
    if a != [] {
      LessIrreflexive(a[1..]);
    }
  }

  lemma {:induction false} LessAsymmetric(a: string, b: string)
    ensures Less(a, b) ==> !Less(b, a)
    decreases |a|
  {
    if a != [] && b != [] && a[0] == b[0] {
      LessAsymmetric(a[1..], b[1..]);
    }
  }

  lemma {:induction false} LessTransitive(a: string, b: string, c: string)
    ensures Less(a, b) && Less(b, c) ==> Less(a, c)
    decreases |a|
  {
    if a != [] && b != [] && c != [] && a[0] == b[0] && b[0] == c[0] {
      LessTransitive(a[1..], b[1..], c[1..]);
    }
  }

  /** Two different strings are always ordered one way or the other. */
  lemma {:induction false} LessTotal(a: string, b: string)
    ensures a != b ==> Less(a, b) || Less(b, a)
    decreases |a|
  {
    if a != [] && b != [] && a[0] == b[0] {
      LessTotal(a[1..], b[1..]);
      if a[1..] == b[1..] {
        assert a == [a[0]] + a[1..] && b == [b[0]] + b[1..];
      }
    }
  }

  /** "not greater than" is transitive as well. */
  lemma NotLessTransitive(a: string, b: string, c: string)
    ensures !Less(b, a) && !Less(c, b) ==> !Less(c, a)
  {
    LessTotal(a, b);
    LessTotal(b, c);
    LessTransitive(c, a, b);
    LessTransitive(b, c, a);
  }
}
