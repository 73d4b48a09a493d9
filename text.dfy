/**
 * The string primitives the formula engine relies on: text received across
 * the foreign-function boundary, whitespace trimming, searching for a
 * delimiter and case folding of function names.
 */
module Text {
  import opened Wrappers

  /**
   * A C string handed over by the host: a null pointer, bytes that are not
   * valid UTF-8, or a decoded string. A C string ends at its first NUL, so a
   * string the host hands over never holds '\0'; `text` is not restricted
   * here, so that the model can state that fact where it is needed.
   */
  datatype RawText = NullPtr | BadUtf8 | Utf8(text: string)

  /** The Unicode White_Space property, which is what `str::trim` removes. */
  predicate IsWhitespace(c: char)
  {
    || ('\U{0009}' <= c <= '\U{000D}')
    || c == ' '
    || c == '\U{0085}'
    || c == '\U{00A0}'
    || c == '\U{1680}'
    || ('\U{2000}' <= c <= '\U{200A}')
    || c == '\U{2028}'
    || c == '\U{2029}'
    || c == '\U{202F}'
    || c == '\U{205F}'
    || c == '\U{3000}'
  }

  predicate AllWhitespace(s: string)
  {
    forall k :: 0 <= k < |s| ==> IsWhitespace(s[k])
  }

  /** Drops the leading whitespace. */
  function TrimStart(s: string): (r: string)
    ensures |r| <= |s|
  {
    if s != [] && IsWhitespace(s[0]) then TrimStart(s[1..]) else s
  }

  /** Drops the trailing whitespace. */
  function TrimEnd(s: string): (r: string)
    ensures |r| <= |s|
  {
    if s != [] && IsWhitespace(s[|s| - 1]) then TrimEnd(s[..|s| - 1]) else s
  }

  /** `str::trim`: drops the whitespace at both ends. */
  function Trim(s: string): (r: string)
    ensures |r| <= |s|
  {
    TrimEnd(TrimStart(s))
  }

  /** TrimStart keeps a suffix of `s` that is empty or starts with a non-space, and cuts only whitespace. */
  lemma {:induction false} TrimStartIsSuffix(s: string)
    ensures TrimStart(s) == s[|s| - |TrimStart(s)|..]
    ensures AllWhitespace(s[..|s| - |TrimStart(s)|])
    ensures TrimStart(s) != [] ==> !IsWhitespace(TrimStart(s)[0])
  {
    if s != [] && IsWhitespace(s[0]) {
      TrimStartIsSuffix(s[1..]);
      var n := |s| - |TrimStart(s)|;
      assert s[..n] == [s[0]] + s[1..][..n - 1];
    }
  }

  /** TrimEnd keeps a prefix of `s` that is empty or ends with a non-space, and cuts only whitespace. */
  lemma {:induction false} TrimEndIsPrefix(s: string)
    ensures TrimEnd(s) == s[..|TrimEnd(s)|]
    ensures AllWhitespace(s[|TrimEnd(s)|..])
    ensures TrimEnd(s) != [] ==> !IsWhitespace(TrimEnd(s)[|TrimEnd(s)| - 1])
  {
    if s != [] && IsWhitespace(s[|s| - 1]) {
      var init := s[..|s| - 1];
      TrimEndIsPrefix(init);
      var r := TrimEnd(init);
      assert s[|r|..] == init[|r|..] + [s[|s| - 1]];
    }
  }

  /** What Trim keeps is empty or starts and ends with a non-space. */
  lemma TrimEnds(s: string)
    ensures Trim(s) != [] ==> !IsWhitespace(Trim(s)[0]) && !IsWhitespace(Trim(s)[|Trim(s)| - 1])
  {
    var t := TrimStart(s);
    TrimStartIsSuffix(s);
    TrimEndIsPrefix(t);
  }

  /** What Trim keeps is one contiguous slice of `s`, and what it cuts away is whitespace only. */
  lemma TrimIsSlice(s: string) returns (i: nat, j: nat)
    ensures i <= j <= |s| && Trim(s) == s[i..j]
    ensures AllWhitespace(s[..i]) && AllWhitespace(s[j..])
  {
    var t := TrimStart(s);
    var r := TrimEnd(t);
    TrimStartIsSuffix(s);
    TrimEndIsPrefix(t);
    i, j := |s| - |t|, |s| - |t| + |r|;
    assert r == s[i..j];
    assert s[j..] == t[|r|..];
  }

  /** Leading whitespace in front of `s` makes no difference to TrimStart. */
  lemma {:induction false} TrimStartSkipsWhitespace(w: string, s: string)
    requires AllWhitespace(w)
    ensures TrimStart(w + s) == TrimStart(s)
  {
    if w != [] {
      assert (w + s)[0] == w[0];
      assert (w + s)[1..] == w[1..] + s;
      TrimStartSkipsWhitespace(w[1..], s);
    } else {
      assert w + s == s;
    }
  }

  /** Trailing whitespace behind `s` makes no difference to TrimEnd. */
  lemma {:induction false} TrimEndSkipsWhitespace(s: string, w: string)
    requires AllWhitespace(w)
    ensures TrimEnd(s + w) == TrimEnd(s)
  {
    if w != [] {
      assert (s + w)[|s + w| - 1] == w[|w| - 1];
      assert (s + w)[..|s + w| - 1] == s + w[..|w| - 1];
      TrimEndSkipsWhitespace(s, w[..|w| - 1]);
    } else {
      assert s + w == s;
    }
  }

  /** TrimStart stops at the first non-space, so whatever follows it is kept verbatim. */
  lemma {:induction false} TrimStartKeepsTail(s: string, t: string)
    requires t != [] && !IsWhitespace(t[0])
    ensures TrimStart(s + t) == TrimStart(s) + t
  {
    if s == [] {
      assert s + t == t;
    } else if IsWhitespace(s[0]) {
      assert (s + t)[1..] == s[1..] + t;
      TrimStartKeepsTail(s[1..], t);
    }
  }

  /** A string that already starts and ends with a non-space is left alone by both trims. */
  lemma TrimOfTrimmed(s: string)
    requires s != [] ==> !IsWhitespace(s[0]) && !IsWhitespace(s[|s| - 1])
    ensures TrimStart(s) == s && TrimEnd(s) == s && Trim(s) == s
  {
  }

  /** Trimming a padded core gives back exactly the core: the inverse of padding with whitespace. */
  lemma TrimOfPadded(pre: string, core: string, post: string)
    requires AllWhitespace(pre) && AllWhitespace(post)
    requires core != [] ==> !IsWhitespace(core[0]) && !IsWhitespace(core[|core| - 1])
    ensures Trim(pre + core + post) == core
  {
    assert core != [] ==> TrimEnd(core + post) == core by {
      if core != [] {
        TrimEndSkipsWhitespace(core, post);
      }
    }
    assert pre + core + post == pre + (core + post);
    TrimStartSkipsWhitespace(pre, core + post);
    if core == [] {
      assert core + post == post + [];
      TrimStartSkipsWhitespace(post, []);
    } else {
      TrimStartKeepsTail([], core + post);
      assert [] + (core + post) == core + post;
      TrimEndSkipsWhitespace(core, post);
      TrimOfTrimmed(core);
    }
  }

  /** Trimming only removes whitespace, so it keeps every other character that occurs in `s`, and adds none. */
  lemma TrimKeepsNonWhitespace(s: string, c: char)
    requires !IsWhitespace(c)
    ensures c in Trim(s) <==> c in s
  {
    var i, j := TrimIsSlice(s);
    if c in s {
      var k :| 0 <= k < |s| && s[k] == c;
      if i <= k < j {
        assert Trim(s)[k - i] == c;
      }
    }
  }

  /** A string whose last character is not a space keeps that character last after trimming. */
  lemma TrimKeepsLast(s: string)
    requires s != [] && !IsWhitespace(s[|s| - 1])
    ensures Trim(s) != [] && Trim(s)[|Trim(s)| - 1] == s[|s| - 1]
  {
    var t := TrimStart(s);
    TrimStartIsSuffix(s);
    assert t[|t| - 1] == s[|s| - 1];
  }

  /** Trimming twice is trimming once. */
  lemma TrimIdempotent(s: string)
    ensures Trim(Trim(s)) == Trim(s)
  {
    TrimEnds(s);
    TrimOfTrimmed(Trim(s));
  }

  /** Trimming the front first changes nothing about the full trim. */
  lemma TrimAfterTrimStart(s: string)
    ensures Trim(TrimStart(s)) == Trim(s)
  {
    TrimStartIsSuffix(s);
    var t := TrimStart(s);
    if t != [] {
      assert TrimStart(t) == t;
    }
  }

  /** TrimStart keeps a suffix, so it introduces no character that `s` lacks. */
  lemma TrimStartAddsNothing(s: string, c: char)
    requires c !in s
    ensures c !in TrimStart(s)
  {
    TrimStartIsSuffix(s);
  }

  /** Leading whitespace in front of `s` makes no difference to Trim. */
  lemma TrimSkipsLeadingWhitespace(w: string, s: string)
    requires AllWhitespace(w)
    ensures Trim(w + s) == Trim(s)
  {
    TrimStartSkipsWhitespace(w, s);
  }

  /** `str::find` for one character: the position of its first occurrence, if any. */
  function IndexOf(s: string, c: char): (r: Option<nat>)
    ensures r.None? <==> c !in s
    ensures r.Some? ==> r.value < |s| && s[r.value] == c && c !in s[..r.value]
  {
    if s == [] then None
    else if s[0] == c then Some(0)
    else match IndexOf(s[1..], c)
      case None => None
      case Some(i) =>
        assert s[..i + 1] == [s[0]] + s[1..][..i];
        Some(i + 1)
  }

  /** ASCII case folding of one character. */
  function UpperChar(c: char): (u: char)
    ensures !('a' <= u <= 'z')
    ensures 'a' <= c <= 'z' ==> 'A' <= u <= 'Z' && u as int == c as int - 32
    ensures !('a' <= c <= 'z') ==> u == c
  {
    if 'a' <= c <= 'z' then (c as int - 32) as char else c
  }

  /** Upper-cases every ASCII letter and keeps everything else: the same length, no lower-case letter left. */
  function ToUpper(s: string): (r: string)
    ensures |r| == |s|
    ensures forall k :: 0 <= k < |s| ==> r[k] == UpperChar(s[k])
  {
    seq(|s|, k requires 0 <= k < |s| => UpperChar(s[k]))
  }

  /** `c` and `d` are the same character, or the lower- and upper-case forms of one ASCII letter. */
  predicate SameIgnoringCase(c: char, d: char)
  {
    || c == d
    || ('a' <= c <= 'z' && d as int == c as int - 32)
    || ('a' <= d <= 'z' && c as int == d as int - 32)
  }

  /** `x` and `y` differ at most in the case of ASCII letters. */
  predicate EqualIgnoringCase(x: string, y: string)
  {
    |x| == |y| && forall k :: 0 <= k < |x| ==> SameIgnoringCase(x[k], y[k])
  }

  /** Characters that differ only in case are both whitespace or both not, and fold to the same character. */
  lemma SameIgnoringCaseChar(c: char, d: char)
    requires SameIgnoringCase(c, d)
    ensures IsWhitespace(c) <==> IsWhitespace(d)
    ensures UpperChar(c) == UpperChar(d)
  {
  }

  /** Upper-casing makes names that differ only in the case of their letters equal. */
  lemma ToUpperIgnoresCase(x: string, y: string)
    requires EqualIgnoringCase(x, y)
    ensures ToUpper(x) == ToUpper(y)
  {
    forall k | 0 <= k < |x|
      ensures ToUpper(x)[k] == ToUpper(y)[k]
    {
      SameIgnoringCaseChar(x[k], y[k]);
    }
  }

  /** TrimStart cuts the same number of characters from strings that differ only in case. */
  lemma {:induction false} TrimStartIgnoresCase(x: string, y: string)
    requires EqualIgnoringCase(x, y)
    ensures EqualIgnoringCase(TrimStart(x), TrimStart(y))
  {
    if x != [] {
      SameIgnoringCaseChar(x[0], y[0]);
      if IsWhitespace(x[0]) {
        assert forall k :: 0 <= k < |x| - 1 ==> x[1..][k] == x[k + 1] && y[1..][k] == y[k + 1];
        TrimStartIgnoresCase(x[1..], y[1..]);
      }
    }
  }

  /** TrimEnd cuts the same number of characters from strings that differ only in case. */
  lemma {:induction false} TrimEndIgnoresCase(x: string, y: string)
    requires EqualIgnoringCase(x, y)
    ensures EqualIgnoringCase(TrimEnd(x), TrimEnd(y))
  {
    if x != [] {
      SameIgnoringCaseChar(x[|x| - 1], y[|y| - 1]);
      if IsWhitespace(x[|x| - 1]) {
        TrimEndIgnoresCase(x[..|x| - 1], y[..|y| - 1]);
      }
    }
  }

  /** Trimming keeps two strings that differ only in case differing only in case. */
  lemma TrimIgnoresCase(x: string, y: string)
    requires EqualIgnoringCase(x, y)
    ensures EqualIgnoringCase(Trim(x), Trim(y))
  {
    TrimStartIgnoresCase(x, y);
    TrimEndIgnoresCase(TrimStart(x), TrimStart(y));
  }
}
